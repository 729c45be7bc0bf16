/** One page of a directory listing as wasm/weblance_glue.cpp passes it from the browser to the reader: a line an
    entry, kind, path and size with tabs between. */
module Listing {
  import opened Options
  import opened Text

  datatype DirEntry = DirEntry(name: string, isDir: bool, size: nat)
  /** An entry as the server lists it: its path is from the root. */
  datatype Listed = Listed(path: string, isDir: bool, size: nat)

  const U64_MAX := 0xFFFF_FFFF_FFFF_FFFF

  // ---- numbers -------------------------------------------------------------------------------------

  predicate IsDigit(c: char) {
    '0' <= c <= '9'
  }

  function Push(acc: nat, c: char): nat
    requires IsDigit(c)
  {
    acc * 10 + (c as int - '0' as int)
  }

  /** The digits up to the first other character, after `acc`. */
  function Digits(s: string, acc: nat): nat
    decreases |s|
  {
    if s == "" || !IsDigit(s[0]) then acc else Digits(s[1..], Push(acc, s[0]))
  }

  /** `isspace` of the C locale. */
  predicate IsBlank(c: char) {
    c == ' ' || 9 as char <= c <= 13 as char
  }

  function SkipBlanks(s: string): string {
    if s != "" && IsBlank(s[0]) then SkipBlanks(s[1..]) else s
  }

  /** `strtoull(s, nullptr, 10)`: blanks, a sign, digits. A number past 64 bits gives 2^64 - 1, whatever its sign;
      a negative one is taken from 2^64. */
  function ToNumber(text: string): (n: nat)
    ensures n <= U64_MAX
  {
    var s := SkipBlanks(text);
    var signed := s != "" && (s[0] == '-' || s[0] == '+');
    var v := Digits(if signed then s[1..] else s, 0);
    if v > U64_MAX then U64_MAX else if signed && s[0] == '-' && v > 0 then U64_MAX + 1 - v else v
  }

  function Digit(d: nat): (c: char)
    requires d < 10
    ensures IsDigit(c) && c as int - '0' as int == d
  {
    (d + '0' as int) as char
  }

  function Decimal(n: nat): (s: string)
    ensures s != "" && forall i :: 0 <= i < |s| ==> IsDigit(s[i])
  {
    if n < 10 then [Digit(n)] else Decimal(n / 10) + [Digit(n % 10)]
  }

  lemma {:induction false} DigitsPush(s: string, c: char, acc: nat)
    requires IsDigit(c) && forall i :: 0 <= i < |s| ==> IsDigit(s[i])
    ensures Digits(s + [c], acc) == Push(Digits(s, acc), c)
    decreases |s|
  {
    if s == "" {
      assert s + [c] == [c];
    } else {
      assert (s + [c])[1..] == s[1..] + [c];
      DigitsPush(s[1..], c, Push(acc, s[0]));
    }
  }

  lemma {:induction false} DecimalDigits(n: nat)
    ensures Digits(Decimal(n), 0) == n
  {
    if n >= 10 {
      DecimalDigits(n / 10);
      DigitsPush(Decimal(n / 10), Digit(n % 10), 0);
    }
  }

  lemma DecimalRead(n: nat)
    requires n <= U64_MAX
    ensures ToNumber(Decimal(n)) == n
  {
    DecimalDigits(n);
    assert IsDigit(Decimal(n)[0]);
  }

  // ---- lines ---------------------------------------------------------------------------------------

  /** The entry a line names, if it is directly under the directory whose prefix this is. */
  function ParseLine(line: string, prefix: string): Option<DirEntry> {
    var t1 := Find(line, '\t', 0);
    if t1.None? then None
    else
      var t2 := Find(line, '\t', t1.value + 1);
      if t2.None? then None
      else
        Direct(Listed(line[t1.value + 1..t2.value], line[0] == 'd', ToNumber(line[t2.value + 1..])), prefix)
  }

  function Direct(e: Listed, prefix: string): Option<DirEntry> {
    if |e.path| <= |prefix| || !(prefix <= e.path) then None
    else
      var name := e.path[|prefix|..];
      if '/' in name then None
      else Some(DirEntry(name, e.isDir, if e.isDir then 0 else e.size))
  }

  /** An entry is directly under a directory exactly when its path is the directory's and one name more; a directory
      has no size of its own. */
  lemma DirectIs(e: Listed, prefix: string, d: DirEntry)
    ensures Direct(e, prefix) == Some(d)
       <==> e.path == prefix + d.name && d.name != "" && '/' !in d.name && d.isDir == e.isDir
            && d.size == if e.isDir then 0 else e.size
  {
    if prefix <= e.path {
      assert e.path == prefix + e.path[|prefix|..];
    }
    if e.path == prefix + d.name {
      assert e.path[|prefix|..] == d.name;
    }
  }

  function Maybe(e: Option<DirEntry>): seq<DirEntry> {
    if e.None? then [] else [e.value]
  }

  function LineEnd(body: string, pos: nat): (end: nat)
    requires pos < |body|
    ensures pos <= end <= |body|
  {
    var nl := Find(body, '\n', pos);
    if nl.None? then |body| else nl.value
  }

  /** The entries of a page from a position on. */
  ghost function Entries(body: string, pos: nat, prefix: string): seq<DirEntry>
    decreases |body| - pos
  {
    if pos >= |body| then []
    else
      var end := LineEnd(body, pos);
      Maybe(ParseLine(body[pos..end], prefix)) + Entries(body, end + 1, prefix)
  }

  method ReadPage(body: string, prefix: string) returns (out: seq<DirEntry>)
    ensures out == Entries(body, 0, prefix)
  {
    hide ParseLine;
    out := [];
    var pos := 0;
    while pos < |body|
      invariant out + Entries(body, pos, prefix) == Entries(body, 0, prefix)
      decreases |body| - pos
    {
      var end := LineEnd(body, pos);
      out := out + Maybe(ParseLine(body[pos..end], prefix));
      pos := end + 1;
    }
  }

  // ---- what the page says --------------------------------------------------------------------------

  /** A path the line format can carry. */
  predicate Plain(e: Listed) {
    '\t' !in e.path && '\n' !in e.path && e.size <= U64_MAX
  }

  function RenderLine(e: Listed): string {
    (if e.isDir then "d" else "f") + "\t" + e.path + "\t" + Decimal(e.size)
  }

  function Render(es: seq<Listed>): string {
    if es == [] then "" else if |es| == 1 then RenderLine(es[0]) else RenderLine(es[0]) + "\n" + Render(es[1..])
  }

  function DirectOnes(es: seq<Listed>, prefix: string): seq<DirEntry> {
    if es == [] then [] else Maybe(Direct(es[0], prefix)) + DirectOnes(es[1..], prefix)
  }

  lemma LineRoundTrip(e: Listed, prefix: string)
    requires Plain(e)
    ensures ParseLine(RenderLine(e), prefix) == Direct(e, prefix)
    ensures '\n' !in RenderLine(e)
  {
    hide Direct, Decimal, ToNumber;
    var line := RenderLine(e);
    var n := |e.path|;
    assert line[1] == '\t' && line[2..2 + n] == e.path && line[2 + n] == '\t' && line[3 + n..] == Decimal(e.size);
    forall i | 2 <= i < 2 + n ensures line[i] != '\t' { assert line[i] == e.path[i - 2]; }
    DecimalRead(e.size);
    forall i | 0 <= i < |line| ensures line[i] != '\n' {
      if 2 <= i < 2 + n { assert line[i] == e.path[i - 2]; }
      if i >= 3 + n { assert line[i] == Decimal(e.size)[i - 3 - n]; }
    }
  }

  /** Entries of the text after a whole line and its newline. */
  lemma {:induction false} EntriesShift(head: string, tail: string, pos: nat, prefix: string)
    ensures Entries(head + tail, |head| + pos, prefix) == Entries(tail, pos, prefix)
    decreases |tail| - pos
  {
    hide ParseLine, LineEnd, Maybe;
    if pos < |tail| {
      LineEndShift(head, tail, pos);
      var end := LineEnd(tail, pos);
      SliceShift(head, tail, pos, end);
      EntriesShift(head, tail, end + 1, prefix);
    }
  }

  lemma SliceShift(head: string, tail: string, i: nat, j: nat)
    requires i <= j <= |tail|
    ensures (head + tail)[|head| + i..|head| + j] == tail[i..j]
  {
  }

  lemma LineEndShift(head: string, tail: string, pos: nat)
    requires pos < |tail|
    ensures LineEnd(head + tail, |head| + pos) == |head| + LineEnd(tail, pos)
  {
    var body := head + tail;
    var a, b := Find(body, '\n', |head| + pos), Find(tail, '\n', pos);
    if a.Some? { assert tail[a.value - |head|] == '\n'; }
    if b.Some? { assert body[b.value + |head|] == '\n'; }
  }

  lemma FirstLineEnd(line: string, rest: string)
    requires '\n' !in line && line != "" && (rest == "" || rest[0] == '\n')
    ensures LineEnd(line + rest, 0) == |line|
  {
    var body := line + rest;
    forall i | 0 <= i < |line| ensures body[i] != '\n' { assert body[i] == line[i]; }
    if rest != "" { assert body[|line|] == '\n'; }
  }

  /** Reading a page gives exactly the entries the server listed directly under the directory, in order. */
  lemma {:induction false} PageRoundTrip(es: seq<Listed>, prefix: string)
    requires forall i :: 0 <= i < |es| ==> Plain(es[i])
    ensures Entries(Render(es), 0, prefix) == DirectOnes(es, prefix)
    decreases |es|
  {
    hide ParseLine, Direct, RenderLine;
    if es != [] {
      var line := RenderLine(es[0]);
      LineRoundTrip(es[0], prefix);
      assert line != "" by { LineNotEmpty(es[0]); }
      var rest := if |es| == 1 then "" else "\n" + Render(es[1..]);
      var body := Render(es);
      assert body == line + rest;
      FirstLineEnd(line, rest);
      assert body[0..|line|] == line;
      if |es| > 1 {
        PageRoundTrip(es[1..], prefix);
        assert body == (line + "\n") + Render(es[1..]);
        EntriesShift(line + "\n", Render(es[1..]), 0, prefix);
      }
    }
  }

  lemma LineNotEmpty(e: Listed)
    ensures RenderLine(e) != ""
  {
  }
}
