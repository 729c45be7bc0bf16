/** The README rewriter of tools/gen_layer_docs.py (`with_block`): a marked block after the first heading, its
    content replaced on the next run. */
module ReadmeBlock {
  import opened Options
  import opened Text

  function StartMark(): string { "<!-- layer-deps:start -->" }

  function EndMark(): string { "<!-- layer-deps:end -->" }

  lemma MarksDiffer()
    ensures StartMark() != EndMark() && '\n' !in StartMark() && '\n' !in EndMark()
    ensures !("# " <= StartMark()) && !("# " <= EndMark())
  {
    assert |StartMark()| == 25 && |EndMark()| == 23;
    assert StartMark()[0] == '<' && EndMark()[0] == '<' && "# "[0] == '#';
  }

  // ---- lines ---------------------------------------------------------------------------------------

  ghost predicate Unbroken(ls: seq<string>) {
    forall i :: 0 <= i < |ls| ==> '\n' !in ls[i]
  }

  /** `text.split("\n")`. */
  function Split(text: string): (ls: seq<string>)
    ensures |ls| >= 1 && Unbroken(ls)
    decreases |text|
  {
    match Find(text, '\n', 0)
    case None => [text]
    case Some(k) => [text[..k]] + Split(text[k + 1..])
  }

  /** `"\n".join(lines)`. */
  function Join(ls: seq<string>): string {
    if ls == [] then "" else if |ls| == 1 then ls[0] else ls[0] + "\n" + Join(ls[1..])
  }

  lemma {:induction false} JoinSplit(text: string)
    ensures Join(Split(text)) == text
    decreases |text|
  {
    var nl := Find(text, '\n', 0);
    if nl.Some? {
      JoinSplit(text[nl.value + 1..]);
      assert Split(text)[1..] == Split(text[nl.value + 1..]);
    }
  }

  lemma {:induction false} SplitJoin(ls: seq<string>)
    requires |ls| >= 1 && Unbroken(ls)
    ensures Split(Join(ls)) == ls
    decreases |ls|
  {
    if |ls| == 1 {
      assert Find(ls[0], '\n', 0).None?;
    } else {
      SplitJoin(ls[1..]);
      var text, k := Join(ls), |ls[0]|;
      assert text[k] == '\n' && text[..k] == ls[0] && text[k + 1..] == Join(ls[1..]);
      assert Find(text, '\n', 0) == Some(k) by {
        forall i | 0 <= i < k ensures text[i] != '\n' { assert text[i] == ls[0][i]; }
      }
    }
  }

  /** `lines.index(x)`. */
  function IndexOf(lines: seq<string>, x: string): (r: Option<nat>)
    ensures r.Some? ==> r.value < |lines| && lines[r.value] == x && forall i :: 0 <= i < r.value ==> lines[i] != x
    ensures r.None? ==> forall i :: 0 <= i < |lines| ==> lines[i] != x
  {
    if lines == [] then None
    else if lines[0] == x then Some(0)
    else
      match IndexOf(lines[1..], x)
      case None => None
      case Some(k) => Some(k + 1)
  }

  /** The first line that starts with "# ". */
  function Heading(lines: seq<string>): (r: Option<nat>)
    ensures r.Some? ==> r.value < |lines| && "# " <= lines[r.value]
    ensures r.Some? ==> forall i :: 0 <= i < r.value ==> !("# " <= lines[i])
    ensures r.None? ==> forall i :: 0 <= i < |lines| ==> !("# " <= lines[i])
  {
    if lines == [] then None
    else if "# " <= lines[0] then Some(0)
    else
      match Heading(lines[1..])
      case None => None
      case Some(k) => Some(k + 1)
  }

  /** `line.strip() == ""`. */
  predicate Blank(line: string) {
    forall i :: 0 <= i < |line| ==> IsSpace(line[i])
  }

  function DropBlank(lines: seq<string>): (r: seq<string>)
    ensures |r| <= |lines| && r == lines[|lines| - |r|..]
    ensures r == [] || !Blank(r[0])
  {
    if lines != [] && Blank(lines[0]) then DropBlank(lines[1..]) else lines
  }

  method PopBlank(lines: seq<string>) returns (rest: seq<string>)
    ensures rest == DropBlank(lines)
  {
    hide Blank;
    rest := lines;
    while rest != [] && Blank(rest[0])
      invariant DropBlank(rest) == DropBlank(lines)
      decreases |rest|
    {
      rest := rest[1..];
    }
  }

  // ---- the rewriter --------------------------------------------------------------------------------

  function Marked(block: seq<string>): seq<string> {
    [StartMark()] + block + [EndMark()]
  }

  /** The new lines; none when a start mark has no end mark, or there is no mark and no heading. */
  function Rewritten(lines: seq<string>, block: seq<string>): Option<seq<string>> {
    match IndexOf(lines, StartMark())
    case Some(s) =>
      (match IndexOf(lines, EndMark())
       case None => None
       case Some(e) => Some(lines[..s] + Marked(block) + lines[e + 1..]))
    case None =>
      match Heading(lines)
      case None => None
      case Some(h) => Some(lines[..h + 1] + [""] + Marked(block) + [""] + DropBlank(lines[h + 1..]))
  }

  /** `with_block`; a Python exception is None. */
  method WithBlock(text: string, block: seq<string>) returns (r: Option<string>)
    ensures Rewritten(Split(text), block).None? <==> r.None?
    ensures r.Some? ==> r.value == Join(Rewritten(Split(text), block).value)
  {
    hide DropBlank, Join, Split, Marked, IndexOf, Heading, StartMark, EndMark;
    var lines := Split(text);
    var marked := Marked(block);
    var s := IndexOf(lines, StartMark());
    if s.Some? {
      var e := IndexOf(lines, EndMark());
      if e.None? {
        return None;
      }
      return Some(Join(lines[..s.value] + marked + lines[e.value + 1..]));
    }
    var h := Heading(lines);
    if h.None? {
      return None;
    }
    var rest := PopBlank(lines[h.value + 1..]);
    r := Some(Join(lines[..h.value + 1] + [""] + marked + [""] + rest));
  }

  // ---- stability -----------------------------------------------------------------------------------

  /** No end mark stands before the place the block goes. */
  predicate InOrder(lines: seq<string>) {
    var e := IndexOf(lines, EndMark());
    if IndexOf(lines, StartMark()).Some? then e.Some? && IndexOf(lines, StartMark()).value < e.value
    else e.Some? && Heading(lines).Some? ==> Heading(lines).value < e.value
  }

  /** What `block_lines` produces: lines that are not marks. */
  ghost predicate PlainBlock(block: seq<string>) {
    StartMark() !in block && EndMark() !in block && Unbroken(block)
  }

  lemma IndexIs(lines: seq<string>, x: string, k: nat)
    requires k < |lines| && lines[k] == x && forall i :: 0 <= i < k ==> lines[i] != x
    ensures IndexOf(lines, x) == Some(k)
  {
  }

  lemma StartAt(head: seq<string>, block: seq<string>, tail: seq<string>)
    requires StartMark() !in head
    ensures IndexOf(head + Marked(block) + tail, StartMark()) == Some(|head|)
  {
    hide StartMark, EndMark, IndexOf;
    var out := head + Marked(block) + tail;
    assert forall i :: 0 <= i < |head| ==> out[i] == head[i];
    IndexIs(out, StartMark(), |head|);
  }

  lemma EndAt(head: seq<string>, block: seq<string>, tail: seq<string>)
    requires EndMark() !in head && PlainBlock(block)
    ensures IndexOf(head + Marked(block) + tail, EndMark()) == Some(|head| + 1 + |block|)
  {
    hide StartMark, EndMark, IndexOf;
    MarksDiffer();
    var out, end := head + Marked(block) + tail, |head| + 1 + |block|;
    forall i | 0 <= i < end ensures out[i] != EndMark() {
      if i < |head| { assert out[i] == head[i]; }
      if i > |head| { assert out[i] == block[i - |head| - 1]; }
    }
    IndexIs(out, EndMark(), end);
  }

  lemma EndBefore(head: seq<string>, rest: seq<string>)
    requires EndMark() in head
    ensures IndexOf(head + rest, EndMark()).Some? && IndexOf(head + rest, EndMark()) == IndexOf(head, EndMark())
  {
    hide StartMark, EndMark, IndexOf;
    var out := head + rest;
    assert forall i :: 0 <= i < |head| ==> out[i] == head[i];
    IndexIs(out, EndMark(), IndexOf(head, EndMark()).value);
  }

  /** Rewriting lines that already hold a block: what is before the mark stays, what is after the end mark stays. */
  lemma Again(head: seq<string>, b1: seq<string>, tail: seq<string>, b2: seq<string>)
    requires StartMark() !in head && PlainBlock(b1) && PlainBlock(b2)
    ensures EndMark() !in head ==>
      Rewritten(head + Marked(b1) + tail, b2) == Some(head + Marked(b2) + tail)
    ensures EndMark() in head ==>
      var r := Rewritten(head + Marked(b1) + tail, b2);
      r.Some? && |r.value| > |head + Marked(b2) + tail|
  {
    hide IndexOf, Marked, StartMark, EndMark;
    var out := head + Marked(b1) + tail;
    StartAt(head, b1, tail);
    MarkedLength(b1);
    assert out[..|head|] == head;
    if EndMark() in head {
      EndBefore(head, Marked(b1) + tail);
      assert out == head + (Marked(b1) + tail);
    } else {
      EndAt(head, b1, tail);
      assert out[|head| + |b1| + 2..] == tail;
    }
  }

  lemma MarkedLength(block: seq<string>)
    ensures |Marked(block)| == |block| + 2
  {
  }

  /** Lines a first run leaves: what is before the block, and what is after it. */
  lemma Placed(lines: seq<string>, b: seq<string>) returns (head: seq<string>, tail: seq<string>)
    requires Rewritten(lines, b).Some?
    ensures StartMark() !in head && Rewritten(lines, b) == Some(head + Marked(b) + tail)
    ensures EndMark() !in head <==> InOrder(lines)
    ensures forall c :: Rewritten(lines, c) == Some(head + Marked(c) + tail)
  {
    hide StartMark, EndMark, IndexOf, Heading, DropBlank, Marked;
    var s, e := IndexOf(lines, StartMark()), IndexOf(lines, EndMark());
    if s.Some? {
      head, tail := lines[..s.value], lines[e.value + 1..];
      assert e.value != s.value by { MarksDiffer(); }
      BeforeHas(lines, EndMark(), s.value);
    } else {
      var h := Heading(lines).value;
      head, tail := lines[..h + 1] + [""], [""] + DropBlank(lines[h + 1..]);
      NotEmptyMarks();
      MarksDiffer();
      BeforeHas(lines, EndMark(), h + 1);
      forall c
        ensures lines[..h + 1] + [""] + Marked(c) + [""] + DropBlank(lines[h + 1..]) == head + Marked(c) + tail
      {
      }
    }
  }

  lemma NotEmptyMarks()
    ensures StartMark() != "" && EndMark() != ""
  {
  }

  lemma BeforeHas(lines: seq<string>, x: string, k: nat)
    requires k <= |lines|
    ensures x in lines[..k] <==> IndexOf(lines, x).Some? && IndexOf(lines, x).value < k
  {
    hide IndexOf;
    var r := IndexOf(lines, x);
    if r.Some? && r.value < k { assert lines[..k][r.value] == x; }
  }

  /** The lines that are not blank. */
  ghost function Solid(lines: seq<string>): seq<string> {
    if lines == [] then [] else (if Blank(lines[0]) then [] else [lines[0]]) + Solid(lines[1..])
  }

  lemma {:induction false} SolidPlus(a: seq<string>, b: seq<string>)
    ensures Solid(a + b) == Solid(a) + Solid(b)
    decreases |a|
  {
    hide Blank;
    if a == [] {
      assert a + b == b;
    } else {
      assert (a + b)[1..] == a[1..] + b;
      SolidPlus(a[1..], b);
    }
  }

  lemma {:induction false} SolidDrop(lines: seq<string>)
    ensures Solid(DropBlank(lines)) == Solid(lines)
    decreases |lines|
  {
    hide Blank;
    if lines != [] && Blank(lines[0]) { SolidDrop(lines[1..]); }
  }

  lemma SolidNone()
    ensures Solid([""]) == []
  {
    assert [""][1..] == [];
  }

  /** Nothing outside the block is lost: a first block comes after the first heading, between the lines before and
      after it, blank ones aside; a later one replaces what is from the first start mark to the first end mark. */
  lemma OutsideKept(lines: seq<string>, block: seq<string>)
    requires Rewritten(lines, block).Some?
    ensures var out := Rewritten(lines, block).value;
            if StartMark() in lines then
              exists s, e :: 0 <= s < |lines| && 0 <= e < |lines| && lines[s] == StartMark() && lines[e] == EndMark()
                && StartMark() !in lines[..s] && EndMark() !in lines[..e]
                && out == lines[..s] + Marked(block) + lines[e + 1..]
            else
              exists h :: 0 <= h < |lines| && "# " <= lines[h] && (forall i :: 0 <= i < h ==> !("# " <= lines[i]))
                && lines[..h + 1] <= out
                && Solid(out) == Solid(lines[..h + 1]) + Solid(Marked(block)) + Solid(lines[h + 1..])
  {
    hide IndexOf, Heading, Marked, StartMark, EndMark, Solid, DropBlank;
    var out := Rewritten(lines, block).value;
    if StartMark() in lines {
      var s, e := IndexOf(lines, StartMark()).value, IndexOf(lines, EndMark()).value;
      assert lines[s] == StartMark() && lines[e] == EndMark();
    } else {
      var h := Heading(lines).value;
      var a, b := lines[..h + 1], lines[h + 1..];
      SolidPlus(a + [""] + Marked(block) + [""], DropBlank(b));
      SolidPlus(a + [""] + Marked(block), [""]);
      SolidPlus(a + [""], Marked(block));
      SolidPlus(a, [""]);
      SolidNone();
      SolidDrop(b);
      assert Solid(a) + [] == Solid(a) && Solid(a) + Solid(Marked(block)) + [] == Solid(a) + Solid(Marked(block));
      assert lines[..h + 1] <= out;
    }
  }

  /** Over lines: writing one block and then another is writing the other, exactly when no end mark stands before
      the place of the block. */
  lemma LastWins(lines: seq<string>, b1: seq<string>, b2: seq<string>)
    requires PlainBlock(b1) && PlainBlock(b2) && Rewritten(lines, b1).Some?
    ensures Rewritten(Rewritten(lines, b1).value, b2) == Rewritten(lines, b2) <==> InOrder(lines)
  {
    hide Rewritten, InOrder, Marked, StartMark, EndMark;
    var head, tail := Placed(lines, b1);
    Again(head, b1, tail, b2);
  }

  /** An end mark above the heading, and what a first run makes of it. */
  function Stray(block: seq<string>): seq<string> {
    [EndMark(), "# t", ""] + Marked(block) + [""]
  }

  lemma StrayFirst(block: seq<string>)
    ensures Rewritten([EndMark(), "# t"], block) == Some(Stray(block))
  {
    hide StartMark, EndMark, Marked, IndexOf, Heading;
    var lines := [EndMark(), "# t"];
    MarksDiffer();
    assert "# " <= lines[1];
    assert IndexOf(lines, StartMark()).None? && Heading(lines) == Some(1);
    assert lines[..2] + [""] == [EndMark(), "# t", ""] && lines[2..] == [] && DropBlank([]) == [];
    assert Stray(block) + [] == Stray(block);
  }

  lemma StraySecond(b1: seq<string>, b2: seq<string>)
    ensures Rewritten(Stray(b1), b2) == Some([EndMark(), "# t", ""] + Marked(b2) + ["# t", ""] + Marked(b1) + [""])
  {
    hide StartMark, EndMark, Marked, IndexOf;
    var head := [EndMark(), "# t", ""];
    MarksDiffer();
    NotEmptyMarks();
    assert "# " <= head[1];
    StartAt(head, b1, [""]);
    assert Stray(b1)[..3] == head;
    IndexIs(Stray(b1), EndMark(), 0);
    assert Stray(b1)[1..] == ["# t", ""] + Marked(b1) + [""];
    assert head + Marked(b2) + Stray(b1)[1..] == head + Marked(b2) + ["# t", ""] + Marked(b1) + [""];
  }

  /** There a second run with another block leaves the first block standing. */
  lemma StrayEndMark(b1: seq<string>, b2: seq<string>)
    ensures Rewritten([EndMark(), "# t"], b1) == Some(Stray(b1))
    ensures Rewritten(Stray(b1), b2) == Some([EndMark(), "# t", ""] + Marked(b2) + ["# t", ""] + Marked(b1) + [""])
    ensures Rewritten(Stray(b1), b2) != Rewritten([EndMark(), "# t"], b2)
  {
    hide Rewritten, Marked;
    StrayFirst(b1);
    StrayFirst(b2);
    StraySecond(b1, b2);
    assert |Stray(b2)| < |Rewritten(Stray(b1), b2).value|;
  }

  lemma UnbrokenPlus(a: seq<string>, b: seq<string>)
    requires Unbroken(a) && Unbroken(b)
    ensures Unbroken(a + b)
  {
  }

  lemma UnbrokenMarked(b: seq<string>)
    requires PlainBlock(b)
    ensures Unbroken(Marked(b))
  {
    hide StartMark, EndMark;
    MarksDiffer();
    UnbrokenPlus([StartMark()], b);
    UnbrokenPlus([StartMark()] + b, [EndMark()]);
  }

  /** Rewriting lines gives lines. */
  lemma PlainOut(lines: seq<string>, b: seq<string>)
    requires PlainBlock(b) && Rewritten(lines, b).Some? && Unbroken(lines)
    ensures var out := Rewritten(lines, b).value; |out| >= 1 && Unbroken(out)
  {
    hide IndexOf, Heading, DropBlank, StartMark, EndMark, Marked, Unbroken;
    UnbrokenMarked(b);
    MarkedLength(b);
    var s, e := IndexOf(lines, StartMark()), IndexOf(lines, EndMark());
    if s.Some? {
      UnbrokenPart(lines, 0, s.value);
      UnbrokenPart(lines, e.value + 1, |lines|);
      UnbrokenPlus(lines[..s.value], Marked(b));
      UnbrokenPlus(lines[..s.value] + Marked(b), lines[e.value + 1..]);
    } else {
      var h := Heading(lines).value;
      var rest := DropBlank(lines[h + 1..]);
      UnbrokenPart(lines, 0, h + 1);
      UnbrokenPart(lines, |lines| - |rest|, |lines|);
      assert rest == lines[|lines| - |rest|..|lines|];
      UnbrokenEmptyLine();
      UnbrokenPlus(lines[..h + 1], [""]);
      UnbrokenPlus(lines[..h + 1] + [""], Marked(b));
      UnbrokenPlus(lines[..h + 1] + [""] + Marked(b), [""]);
      UnbrokenPlus(lines[..h + 1] + [""] + Marked(b) + [""], rest);
    }
  }

  lemma UnbrokenPart(lines: seq<string>, i: nat, j: nat)
    requires i <= j <= |lines| && Unbroken(lines)
    ensures Unbroken(lines[i..j])
  {
  }

  lemma UnbrokenEmptyLine()
    ensures Unbroken([""])
  {
  }

  /** Over texts: a second run with the same block changes nothing, exactly when the text is in order. */
  lemma SecondRunSame(text: string, block: seq<string>)
    requires PlainBlock(block) && Rewritten(Split(text), block).Some?
    ensures var once := Join(Rewritten(Split(text), block).value);
            (Rewritten(Split(once), block).Some? && Join(Rewritten(Split(once), block).value) == once)
            <==> InOrder(Split(text))
  {
    hide Rewritten, InOrder, Split, Join, StartMark, EndMark;
    var out := Rewritten(Split(text), block).value;
    PlainOut(Split(text), block);
    SplitJoin(out);
    LastWins(Split(text), block, block);
    if Rewritten(out, block).Some? {
      PlainOut(out, block);
      SplitJoin(Rewritten(out, block).value);
    }
  }

  lemma StrayOutOfOrder()
    ensures !InOrder([EndMark(), "# t"])
  {
    hide EndMark, StartMark, IndexOf, Heading;
    var lines := [EndMark(), "# t"];
    MarksDiffer();
    assert "# " <= lines[1];
    assert IndexOf(lines, StartMark()).None? && Heading(lines) == Some(1);
    IndexIs(lines, EndMark(), 0);
  }

  /** The text with the end mark above its heading is changed again by a second run with the same block. */
  lemma StrayText(block: seq<string>)
    requires PlainBlock(block)
    ensures var text := Join([EndMark(), "# t"]);
            Rewritten(Split(text), block) == Some(Stray(block))
            && var once := Join(Stray(block));
               !(Rewritten(Split(once), block).Some? && Join(Rewritten(Split(once), block).value) == once)
  {
    hide Rewritten, Split, Join, EndMark, StartMark, Stray, InOrder;
    var lines := [EndMark(), "# t"];
    MarksDiffer();
    SplitJoin(lines);
    StrayFirst(block);
    StrayOutOfOrder();
    SecondRunSame(Join(lines), block);
  }
}
