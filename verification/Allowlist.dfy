/** The list of known violations of tools/check_layers.py (`read_allowlist`, `write_allowlist`): what its regular
    expression takes a line for, and that the list written is the list read. The file is its lines. */
module Allowlist {
  import opened Options
  import opened Order
  import opened Text

  datatype Line = Blank | Entry(a: string, b: string) | Malformed

  predicate Solid(s: string) {
    s != "" && forall i :: 0 <= i < |s| ==> !IsSpace(s[i])
  }

  ghost predicate Spaces(s: string) {
    forall i :: 0 <= i < |s| ==> IsSpace(s[i])
  }

  /** A name that can stand in the list. */
  predicate Plain(name: string) {
    Solid(name) && '#' !in name
  }

  // ---- the regular expression ----------------------------------------------------------------------

  /** The text matches the expression with these two groups. */
  ghost predicate Matches(text: string, a: string, b: string) {
    Solid(a) && Solid(b) && exists x, y :: Spaces(x) && Spaces(y) && text == a + x + "->" + y + b
  }

  /** What follows the arrow, when the first group is the first k characters. */
  function After(text: string, k: nat): Option<string>
    requires k <= |text|
  {
    var j := SkipSpaces(text, k);
    if j + 2 <= |text| && text[j..j + 2] == "->" && Solid(text[SkipSpaces(text, j + 2)..])
    then Some(text[SkipSpaces(text, j + 2)..]) else None
  }

  lemma SkipIs(s: string, from: nat, to: nat)
    requires from <= to <= |s| && (forall i :: from <= i < to ==> IsSpace(s[i])) && (to < |s| ==> !IsSpace(s[to]))
    ensures SkipSpaces(s, from) == to
  {
  }

  lemma Pieces(a: string, x: string, y: string, b: string)
    ensures var text, j := a + x + "->" + y + b, |a| + |x|;
            && text[..|a|] == a && text[|a|..j] == x && text[j..j + 2] == "->"
            && text[j + 2..j + 2 + |y|] == y && text[j + 2 + |y|..] == b
  {
  }

  lemma SpacesAt(s: string, from: nat, to: nat)
    requires from <= to <= |s| && Spaces(s[from..to]) && to < |s| && !IsSpace(s[to])
    ensures SkipSpaces(s, from) == to
  {
    hide IsSpace;
    forall i | from <= i < to ensures IsSpace(s[i]) { assert s[i] == s[from..to][i - from]; }
    SkipIs(s, from, to);
  }

  lemma AfterFinds(text: string, a: string, b: string)
    requires Matches(text, a, b)
    ensures |a| <= |text| && text[..|a|] == a && After(text, |a|) == Some(b)
  {
    hide IsSpace, Spaces;
    var x, y :| Spaces(x) && Spaces(y) && text == a + x + "->" + y + b;
    Pieces(a, x, y, b);
    var j := |a| + |x|;
    var k := j + 2 + |y|;
    assert text[j] == "->"[0];
    DashSolid();
    SpacesAt(text, |a|, j);
    assert text[k] == b[0];
    SpacesAt(text, j + 2, k);
  }

  lemma DashSolid()
    ensures !IsSpace("->"[0]) && IsSpace(' ')
  {
  }

  lemma AfterMatches(text: string, k: nat)
    requires k <= |text| && Solid(text[..k]) && After(text, k).Some?
    ensures Matches(text, text[..k], After(text, k).value)
  {
    var j := SkipSpaces(text, k);
    var m := SkipSpaces(text, j + 2);
    var x, y := text[k..j], text[j + 2..m];
    assert Spaces(x) && Spaces(y);
    assert text == text[..k] + x + "->" + y + text[m..];
  }

  /** Greedy: the longest first group of at most k characters that leaves a match. */
  function Longest(text: string, k: nat): (r: Option<(string, string)>)
    requires k <= |text| && forall i :: 0 <= i < k ==> !IsSpace(text[i])
    ensures r.Some? ==> Matches(text, r.value.0, r.value.1)
    ensures forall a, b :: |a| <= k && Matches(text, a, b) ==> r.Some? && |a| <= |r.value.0|
  {
    hide After, Matches;
    if k == 0 then None
    else if After(text, k).Some? then
      AfterMatches(text, k);
      Some((text[..k], After(text, k).value))
    else
      assert forall a, b :: |a| == k ==> !Matches(text, a, b) by {
        forall a, b | |a| == k && Matches(text, a, b) ensures false { AfterFinds(text, a, b); }
      }
      Longest(text, k - 1)
  }

  /** Where the first blank is. */
  function SolidEnd(s: string): (r: nat)
    ensures r <= |s| && (forall i :: 0 <= i < r ==> !IsSpace(s[i])) && (r < |s| ==> IsSpace(s[r]))
  {
    if s == "" || IsSpace(s[0]) then 0
    else
      var r := SolidEnd(s[1..]);
      assert forall i :: 1 <= i < 1 + r ==> s[i] == s[1..][i - 1];
      1 + r
  }

  // ---- a line --------------------------------------------------------------------------------------

  function BeforeHash(raw: string): (r: string)
    ensures '#' !in r && r <= raw
  {
    match Find(raw, '#', 0)
    case None => raw
    case Some(k) => raw[..k]
  }

  function ReadLine(raw: string): Line {
    var text := Stripped(BeforeHash(raw));
    if text == "" then Blank
    else
      match Longest(text, SolidEnd(text))
      case None => Malformed
      case Some((a, b)) => Entry(a, b)
  }

  function LineOf(a: string, b: string, note: string): string {
    a + " -> " + b + "  # " + note
  }

  /** What the expression means: an entry is the match with the longest first name, and a line with text that
      matches in no way is malformed. */
  lemma ReadLineIs(raw: string)
    ensures var text := Stripped(BeforeHash(raw));
            && (ReadLine(raw).Blank? <==> text == "")
            && (ReadLine(raw).Malformed? <==> text != "" && forall a, b :: !Matches(text, a, b))
            && (ReadLine(raw).Entry? ==> Matches(text, ReadLine(raw).a, ReadLine(raw).b))
            && (ReadLine(raw).Entry? ==> forall a, b :: Matches(text, a, b) ==> |a| <= |ReadLine(raw).a|)
  {
    hide Matches, After, Stripped, BeforeHash, Solid, IsSpace, Longest;
    var text := Stripped(BeforeHash(raw));
    forall a, b | Matches(text, a, b) ensures |a| <= SolidEnd(text) {
      MatchIsSolid(text, a, b);
    }
  }

  lemma MatchIsSolid(text: string, a: string, b: string)
    requires Matches(text, a, b)
    ensures |a| <= SolidEnd(text)
  {
    hide Matches, After, IsSpace;
    AfterFinds(text, a, b);
    MatchSolid(text, a, b);
    assert forall i :: 0 <= i < |a| ==> text[i] == a[i];
  }

  lemma MatchSolid(text: string, a: string, b: string)
    requires Matches(text, a, b)
    ensures Solid(a) && Solid(b)
  {
  }

  /** The names of an entry can stand in the list. */
  lemma EntryPlain(raw: string)
    requires ReadLine(raw).Entry?
    ensures Plain(ReadLine(raw).a) && Plain(ReadLine(raw).b)
  {
    hide Solid, IsSpace, SkipSpaces, Stripped, Longest, SolidEnd, BeforeHash, ReadLine;
    ReadLineIs(raw);
    var text := Stripped(BeforeHash(raw));
    StrippedPart(BeforeHash(raw), '#');
    var a, b := ReadLine(raw).a, ReadLine(raw).b;
    var x, y :| Spaces(x) && Spaces(y) && text == a + x + "->" + y + b;
    Pieces(a, x, y, b);
    assert forall i :: 0 <= i < |a| ==> a[i] == text[i];
    assert forall i :: 0 <= i < |b| ==> b[i] == text[|a| + |x| + 2 + |y| + i];
  }

  lemma StrippedPart(s: string, c: char)
    requires c !in s
    ensures c !in Stripped(s)
  {
  }

  lemma TextOf(a: string, b: string, note: string)
    requires Plain(a) && Plain(b)
    ensures Stripped(BeforeHash(LineOf(a, b, note))) == a + " -> " + b
  {
    hide IsSpace, SkipSpaces, TrimEnd;
    var text := a + " -> " + b;
    var raw, hash := LineOf(a, b, note), |text| + 2;
    assert raw == text + "  # " + note;
    assert Find(raw, '#', 0) == Some(hash) by {
      assert raw[hash] == '#';
      forall i | 0 <= i < hash ensures raw[i] != '#' {
        if i < |a| { assert raw[i] == a[i]; }
        else if |a| + 4 <= i < |text| { assert raw[i] == b[i - |a| - 4]; }
      }
    }
    var before := raw[..hash];
    assert before == text + "  ";
    assert before[0] == a[0];
    SkipIs(before, 0, 0);
    assert before[0..] == before;
    DashSolid();
    assert before[|text| - 1] == b[|b| - 1];
    TrimIs(before, |text|);
    assert before[..|text|] == text;
  }

  lemma {:induction false} TrimIs(s: string, to: nat)
    requires to <= |s| && (forall i :: to <= i < |s| ==> IsSpace(s[i])) && (to > 0 ==> !IsSpace(s[to - 1]))
    ensures TrimEnd(s) == to
  {
  }

  /** A pair written is the pair read, exactly when its names have no blank and no number sign in them. */
  lemma LineBack(a: string, b: string, note: string)
    ensures ReadLine(LineOf(a, b, note)) == Entry(a, b) <==> Plain(a) && Plain(b)
  {
    hide ReadLine, LineOf, IsSpace;
    var raw := LineOf(a, b, note);
    if ReadLine(raw) == Entry(a, b) {
      EntryPlain(raw);
    }
    if Plain(a) && Plain(b) {
      PlainBack(a, b, note);
    }
  }

  lemma PlainBack(a: string, b: string, note: string)
    requires Plain(a) && Plain(b)
    ensures ReadLine(LineOf(a, b, note)) == Entry(a, b)
  {
    hide ReadLine, LineOf, IsSpace, Stripped, BeforeHash, After, Matches, Spaces, Solid;
    var raw, text := LineOf(a, b, note), a + " -> " + b;
    TextOf(a, b, note);
    ArrowMatches(a, b);
    ReadLineIs(raw);
    var c, d := ReadLine(raw).a, ReadLine(raw).b;
    AfterFinds(text, a, b);
    AfterFinds(text, c, d);
    MatchIsSolid(text, c, d);
    SolidEndIs(a, b);
    assert |c| == |a|;
  }

  lemma ArrowMatches(a: string, b: string)
    requires Solid(a) && Solid(b)
    ensures Matches(a + " -> " + b, a, b)
  {
    assert Spaces(" ");
    assert a + " -> " + b == a + " " + "->" + " " + b;
  }

  lemma SolidEndIs(a: string, b: string)
    ensures SolidEnd(a + " -> " + b) <= |a|
  {
    DashSolid();
    assert (a + " -> " + b)[|a|] == ' ';
  }

  // ---- the list ------------------------------------------------------------------------------------

  type Pair = (string, string)

  function EntriesOf(lines: seq<string>): set<Pair> {
    set l | l in lines && ReadLine(l).Entry? :: (ReadLine(l).a, ReadLine(l).b)
  }

  /** Which lines are malformed. */
  function MalformedAt(lines: seq<string>): set<nat> {
    set i: nat | i < |lines| && ReadLine(lines[i]).Malformed?
  }

  method ReadAllowlist(lines: seq<string>) returns (entries: set<Pair>, errors: seq<nat>)
    ensures entries == EntriesOf(lines)
    ensures Ascending(errors) && Members(errors) == MalformedAt(lines)
  {
    hide ReadLine, Ascending;
    entries, errors := {}, [];
    AscendingNone();
    for i := 0 to |lines|
      invariant entries == EntriesOf(lines[..i])
      invariant Ascending(errors) && Members(errors) == MalformedAt(lines[..i])
    {
      assert lines[..i + 1] == lines[..i] + [lines[i]];
      EntriesPush(lines[..i], lines[i]);
      MalformedPush(lines[..i], lines[i]);
      AscendingNext(errors, i);
      MembersPush(errors, i);
      match ReadLine(lines[i])
      case Blank =>
      case Entry(a, b) => entries := entries + {(a, b)};
      case Malformed => errors := errors + [i];
    }
    assert lines[..|lines|] == lines;
  }

  lemma EntriesPush(lines: seq<string>, l: string)
    ensures var more := if ReadLine(l).Entry? then {(ReadLine(l).a, ReadLine(l).b)} else {};
            EntriesOf(lines + [l]) == EntriesOf(lines) + more
  {
    hide ReadLine;
  }

  lemma MalformedPush(lines: seq<string>, l: string)
    ensures MalformedAt(lines + [l]) == MalformedAt(lines) + if ReadLine(l).Malformed? then {|lines|} else {}
    ensures forall i :: i in MalformedAt(lines) ==> i < |lines|
  {
    hide ReadLine;
    var more := lines + [l];
    assert forall i :: 0 <= i < |lines| ==> more[i] == lines[i];
  }

  function Meaning(): string {
    "#" + " Known layering violations: 'A -> B' means module A includes module B from a higher layer."
  }

  function Keeper(): string {
    "#" + " Maintained by tools/check_layers.py --write-allowlist. This list may only shrink."
  }

  function Header(): seq<string> {
    [Meaning(), Keeper(), ""]
  }

  lemma MeaningComment()
    ensures Meaning() != "" && Meaning()[0] == '#'
  {
  }

  lemma KeeperComment()
    ensures Keeper() != "" && Keeper()[0] == '#'
  {
  }

  lemma CommentBlank(l: string)
    requires l == "" || l[0] == '#'
    ensures ReadLine(l).Blank?
  {
    hide IsSpace;
    assert BeforeHash(l) == "";
  }

  lemma HeaderBlank(l: string)
    requires l in Header()
    ensures ReadLine(l).Blank?
  {
    hide Meaning, Keeper, ReadLine;
    MeaningComment();
    KeeperComment();
    CommentBlank(l);
  }

  function Note(layerOf: string -> string, p: Pair): string {
    layerOf(p.0) + " -> " + layerOf(p.1)
  }

  function Rows(pairs: seq<Pair>, layerOf: string -> string): (r: seq<string>)
    ensures |r| == |pairs|
    ensures forall i :: 0 <= i < |r| ==> r[i] == LineOf(pairs[i].0, pairs[i].1, Note(layerOf, pairs[i]))
  {
    seq(|pairs|, i requires 0 <= i < |pairs| => LineOf(pairs[i].0, pairs[i].1, Note(layerOf, pairs[i])))
  }

  function Written(pairs: seq<Pair>, layerOf: string -> string): seq<string> {
    Header() + Rows(pairs, layerOf)
  }

  method WriteAllowlist(pairs: seq<Pair>, layerOf: string -> string) returns (lines: seq<string>)
    ensures lines == Written(pairs, layerOf)
  {
    hide LineOf, Note, Header;
    lines := Header();
    for i := 0 to |pairs|
      invariant lines == Written(pairs[..i], layerOf)
    {
      lines := lines + [LineOf(pairs[i].0, pairs[i].1, Note(layerOf, pairs[i]))];
    }
    assert pairs[..|pairs|] == pairs;
  }

  ghost predicate AllPlain(pairs: set<Pair>) {
    forall p :: p in pairs ==> Plain(p.0) && Plain(p.1)
  }

  /** The list written is the list read, with no line malformed, exactly when every name can stand in it. */
  lemma WrittenBack(pairs: seq<Pair>, layerOf: string -> string)
    ensures var lines := Written(pairs, layerOf);
            && (EntriesOf(lines) == (set p | p in pairs) <==> AllPlain(set p | p in pairs))
            && (AllPlain(set p | p in pairs) ==> forall l :: l in lines ==> !ReadLine(l).Malformed?)
  {
    hide ReadLine, LineOf, Note, Header, Plain;
    var lines, listed := Written(pairs, layerOf), set p | p in pairs;
    forall e | e in EntriesOf(lines) ensures Plain(e.0) && Plain(e.1) {
      var l :| l in lines && ReadLine(l).Entry? && e == (ReadLine(l).a, ReadLine(l).b);
      EntryPlain(l);
    }
    if AllPlain(listed) {
      forall l | l in lines
        ensures !ReadLine(l).Malformed? && (ReadLine(l).Entry? ==> (ReadLine(l).a, ReadLine(l).b) in listed)
      {
        LineIs(pairs, layerOf, l);
      }
      forall p | p in pairs ensures p in EntriesOf(lines) {
        PairWritten(pairs, layerOf, p);
      }
    }
  }

  lemma LineIs(pairs: seq<Pair>, layerOf: string -> string, l: string)
    requires l in Written(pairs, layerOf) && forall p :: p in pairs ==> Plain(p.0) && Plain(p.1)
    ensures ReadLine(l).Blank? || (ReadLine(l).Entry? && (ReadLine(l).a, ReadLine(l).b) in pairs)
  {
    hide ReadLine, LineOf, Note, Header, Plain;
    if l in Header() {
      HeaderBlank(l);
    } else {
      var i :| 0 <= i < |pairs| && l == LineOf(pairs[i].0, pairs[i].1, Note(layerOf, pairs[i]));
      assert pairs[i] in pairs;
      LineBack(pairs[i].0, pairs[i].1, Note(layerOf, pairs[i]));
    }
  }

  lemma PairWritten(pairs: seq<Pair>, layerOf: string -> string, p: Pair)
    requires p in pairs && Plain(p.0) && Plain(p.1)
    ensures p in EntriesOf(Written(pairs, layerOf))
  {
    hide ReadLine, LineOf, Note, Header, Plain;
    var i :| 0 <= i < |pairs| && pairs[i] == p;
    var l := LineOf(p.0, p.1, Note(layerOf, p));
    assert Written(pairs, layerOf)[|Header()| + i] == l;
    LineBack(p.0, p.1, Note(layerOf, p));
  }
}
