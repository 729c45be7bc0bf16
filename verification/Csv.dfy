/** The CSV output of tools/nlance2table.cpp: escaping a cell, a line of cells, and reading the text back by
    section 2 of RFC 4180 (with a line feed between records). */
module Csv {
  import opened Options

  // ---- writing -------------------------------------------------------------------------------------

  predicate Special(c: char) {
    c == ',' || c == '"' || c == '\n' || c == '\r'
  }

  predicate NeedsQuote(field: string) {
    exists i :: 0 <= i < |field| && Special(field[i])
  }

  /** Every quote written twice. */
  function Doubled(field: string): string {
    if field == "" then "" else (if field[0] == '"' then "\"\"" else [field[0]]) + Doubled(field[1..])
  }

  function Escaped(field: string): string {
    if NeedsQuote(field) then "\"" + Doubled(field) + "\"" else field
  }

  function Line(cells: seq<string>): string {
    if cells == [] then ""
    else if |cells| == 1 then Escaped(cells[0])
    else Escaped(cells[0]) + "," + Line(cells[1..])
  }

  function File(rows: seq<seq<string>>): string {
    if rows == [] then "" else Line(rows[0]) + "\n" + File(rows[1..])
  }

  lemma {:induction false} DoubledPush(field: string, c: char)
    ensures Doubled(field + [c]) == Doubled(field) + (if c == '"' then "\"\"" else [c])
    decreases |field|
  {
    if field == "" {
      assert field + [c] == [c];
    } else {
      assert (field + [c])[1..] == field[1..] + [c];
      DoubledPush(field[1..], c);
    }
  }

  /** `csv_escape`: the field is appended, quoted when it must be. */
  method CsvEscape(out: string, field: string) returns (r: string)
    ensures r == out + Escaped(field)
  {
    if !NeedsQuote(field) {
      return out + field;
    }
    hide NeedsQuote, Doubled;
    r := out + "\"";
    DoubledNone();
    for i := 0 to |field|
      invariant r == out + "\"" + Doubled(field[..i])
    {
      DoubledPush(field[..i], field[i]);
      assert field[..i + 1] == field[..i] + [field[i]];
      ghost var before := r;
      if field[i] == '"' {
        r := r + "\"";
      }
      r := r + [field[i]];
      Assoc(out + "\"", Doubled(field[..i]), if field[i] == '"' then "\"\"" else [field[i]]);
      assert r == before + if field[i] == '"' then "\"\"" else [field[i]];
    }
    assert field[..|field|] == field;
    Assoc(out + "\"", Doubled(field), "\"");
    Assoc(out, "\"", Doubled(field) + "\"");
    Assoc("\"", Doubled(field), "\"");
    r := r + "\"";
  }

  lemma Assoc(a: string, b: string, c: string)
    ensures a + (b + c) == a + b + c
  {
  }

  lemma DoubledNone()
    ensures Doubled("") == ""
  {
  }

  lemma {:induction false} LinePush(cells: seq<string>, c: string)
    ensures Line(cells + [c]) == if cells == [] then Escaped(c) else Line(cells) + "," + Escaped(c)
    decreases |cells|
  {
    hide Escaped;
    if cells == [] {
      assert cells + [c] == [c];
    } else {
      assert (cells + [c])[1..] == cells[1..] + [c];
      LinePush(cells[1..], c);
    }
  }

  /** The loop that writes a header or a row. */
  method WriteLine(cells: seq<string>) returns (line: string)
    ensures line == Line(cells) + "\n"
  {
    hide Escaped, Line;
    line := "";
    LineNone();
    for i := 0 to |cells|
      invariant line == Line(cells[..i])
    {
      LinePush(cells[..i], cells[i]);
      assert cells[..i + 1] == cells[..i] + [cells[i]];
      if i > 0 {
        line := line + ",";
      }
      line := CsvEscape(line, cells[i]);
    }
    assert cells[..|cells|] == cells;
    line := line + "\n";
  }

  // ---- reading, by section 2 of RFC 4180 -----------------------------------------------------------

  /** The inside of a quoted field up to its closing quote, and what follows. */
  function ReadQuoted(s: string): Option<(string, string)> {
    if s == "" then None
    else if s[0] == '"' then
      if |s| > 1 && s[1] == '"' then
        match ReadQuoted(s[2..])
        case None => None
        case Some(r) => Some(("\"" + r.0, r.1))
      else Some(("", s[1..]))
    else
      match ReadQuoted(s[1..])
      case None => None
      case Some(r) => Some(([s[0]] + r.0, r.1))
  }

  /** Plain text up to the first special character, and what follows. */
  function ReadBare(s: string): (string, string) {
    if s == "" || Special(s[0]) then ("", s)
    else
      var r := ReadBare(s[1..]);
      ([s[0]] + r.0, r.1)
  }

  function ReadField(s: string): Option<(string, string)> {
    if s != "" && s[0] == '"' then ReadQuoted(s[1..]) else Some(ReadBare(s))
  }

  lemma {:induction false} BareShrinks(s: string)
    ensures |ReadBare(s).1| <= |s|
    decreases |s|
  {
    if s != "" && !Special(s[0]) { BareShrinks(s[1..]); }
  }

  lemma {:induction false} QuotedShrinks(s: string)
    ensures ReadQuoted(s).Some? ==> |ReadQuoted(s).value.1| < |s|
    decreases |s|
  {
    if s != "" {
      if s[0] != '"' { QuotedShrinks(s[1..]); } else if |s| > 1 && s[1] == '"' { QuotedShrinks(s[2..]); }
    }
  }

  /** A record: fields with commas between, up to its line feed; what follows it is shorter. */
  function ReadRecord(s: string): (r: Option<(seq<string>, string)>)
    ensures r.Some? ==> |r.value.1| < |s|
    decreases |s|
  {
    if ReadField(s).None? then None
    else
      var f := ReadField(s).value;
      assert |f.1| <= |s| by { if s != "" && s[0] == '"' { QuotedShrinks(s[1..]); } else { BareShrinks(s); } }
      if f.1 == "" then None
      else if f.1[0] == '\n' then Some(([f.0], f.1[1..]))
      else if f.1[0] == ',' then
        match ReadRecord(f.1[1..])
        case None => None
        case Some(more) => Some(([f.0] + more.0, more.1))
      else None
  }

  function ReadFile(s: string): Option<seq<seq<string>>>
    decreases |s|
  {
    if s == "" then Some([])
    else
      match ReadRecord(s)
      case None => None
      case Some(r) =>
        match ReadFile(r.1)
        case None => None
        case Some(more) => Some([r.0] + more)
  }

  // ---- the inverse ---------------------------------------------------------------------------------

  ghost predicate Delimited(rest: string) {
    rest != "" && (rest[0] == ',' || rest[0] == '\n')
  }

  lemma {:induction false} QuotedBack(field: string, rest: string)
    requires Delimited(rest)
    ensures ReadQuoted(Doubled(field) + "\"" + rest) == Some((field, rest))
    decreases |field|
  {
    var s := Doubled(field) + "\"" + rest;
    if field == "" {
      assert s == "\"" + rest && s[1..] == rest;
    } else {
      QuotedBack(field[1..], rest);
      var tail := Doubled(field[1..]) + "\"" + rest;
      if field[0] == '"' {
        assert s == "\"\"" + tail && s[2..] == tail;
      } else {
        assert s == [field[0]] + tail && s[1..] == tail;
      }
      assert field == [field[0]] + field[1..];
    }
  }

  lemma {:induction false} BareBack(field: string, rest: string)
    requires !NeedsQuote(field) && Delimited(rest)
    ensures ReadBare(field + rest) == (field, rest)
    decreases |field|
  {
    if field == "" {
      assert field + rest == rest;
    } else {
      assert !Special(field[0]);
      assert !NeedsQuote(field[1..]) by {
        forall i | 0 <= i < |field[1..]| ensures !Special(field[1..][i]) { assert field[1..][i] == field[i + 1]; }
      }
      BareBack(field[1..], rest);
      assert (field + rest)[1..] == field[1..] + rest && (field + rest)[0] == field[0];
      assert field == [field[0]] + field[1..];
    }
  }

  lemma QuotedFieldBack(field: string, rest: string)
    requires NeedsQuote(field) && Delimited(rest)
    ensures ReadField(Escaped(field) + rest) == Some((field, rest))
  {
    hide NeedsQuote, ReadQuoted, Doubled;
    var s := Escaped(field) + rest;
    QuotedBack(field, rest);
    assert s[0] == '"' && s[1..] == Doubled(field) + "\"" + rest;
  }

  lemma BareFieldBack(field: string, rest: string)
    requires !NeedsQuote(field) && Delimited(rest)
    ensures ReadField(Escaped(field) + rest) == Some((field, rest))
  {
    hide ReadBare, ReadQuoted;
    var s := field + rest;
    BareBack(field, rest);
    if field != "" { assert !Special(field[0]) && s[0] == field[0]; } else { assert s == rest; }
  }

  lemma FieldBack(field: string, rest: string)
    requires Delimited(rest)
    ensures ReadField(Escaped(field) + rest) == Some((field, rest))
  {
    hide ReadField, Escaped, NeedsQuote;
    if NeedsQuote(field) {
      QuotedFieldBack(field, rest);
    } else {
      BareFieldBack(field, rest);
    }
  }

  lemma {:induction false} RecordBack(cells: seq<string>, rest: string)
    requires cells != []
    ensures ReadRecord(Line(cells) + "\n" + rest) == Some((cells, rest))
    decreases |cells|
  {
    hide Escaped, ReadField;
    var s := Line(cells) + "\n" + rest;
    if |cells| == 1 {
      assert s == Escaped(cells[0]) + ("\n" + rest);
      FieldBack(cells[0], "\n" + rest);
      assert ("\n" + rest)[1..] == rest && cells == [cells[0]];
    } else {
      var tail := Line(cells[1..]) + "\n" + rest;
      assert s == Escaped(cells[0]) + ("," + tail);
      FieldBack(cells[0], "," + tail);
      RecordBack(cells[1..], rest);
      assert ("," + tail)[1..] == tail && cells == [cells[0]] + cells[1..];
    }
  }

  /** A row of no cells cannot be told from a row of one empty cell. */
  function Seen(rows: seq<seq<string>>): seq<seq<string>> {
    if rows == [] then [] else [if rows[0] == [] then [""] else rows[0]] + Seen(rows[1..])
  }

  lemma EmptyRecordBack(rest: string)
    ensures ReadRecord("\n" + rest) == Some(([""], rest))
  {
    assert ("\n" + rest)[1..] == rest;
  }

  /** Whatever the cells hold, reading the file gives the rows back. */
  lemma {:induction false} FileBack(rows: seq<seq<string>>)
    ensures ReadFile(File(rows)) == Some(Seen(rows))
    decreases |rows|
  {
    hide ReadRecord, Line;
    if rows != [] {
      var rest := File(rows[1..]);
      FileBack(rows[1..]);
      if rows[0] == [] {
        assert Line([]) == "" by { LineNone(); }
        assert File(rows) == "\n" + rest;
        EmptyRecordBack(rest);
      } else {
        RecordBack(rows[0], rest);
      }
    }
  }

  lemma LineNone()
    ensures Line([]) == ""
  {
  }

  /** The rows come back unchanged exactly when none is without cells. */
  lemma FileRoundTrip(rows: seq<seq<string>>)
    ensures ReadFile(File(rows)) == Some(rows) <==> forall i :: 0 <= i < |rows| ==> rows[i] != []
  {
    FileBack(rows);
    SeenIs(rows);
  }

  lemma {:induction false} SeenIs(rows: seq<seq<string>>)
    ensures Seen(rows) == rows <==> forall i :: 0 <= i < |rows| ==> rows[i] != []
    decreases |rows|
  {
    if rows != [] {
      SeenIs(rows[1..]);
      assert rows == [rows[0]] + rows[1..];
      if Seen(rows) == rows {
        assert Seen(rows)[1..] == Seen(rows[1..]) == rows[1..];
        assert Seen(rows)[0] == rows[0];
        forall i | 0 <= i < |rows| ensures rows[i] != [] { if i > 0 { assert rows[i] == rows[1..][i - 1]; } }
      }
    }
  }

  /** A row without cells is written as an empty line, which reads as a row of one empty cell. */
  lemma NoCellsReadAsOne()
    ensures ReadFile(File([[]])) == Some([[""]])
  {
    var rows: seq<seq<string>> := [[]];
    FileBack(rows);
    assert rows[0] == [] && rows[1..] == [];
    assert Seen([]) == [];
    assert Seen(rows) == [[""]];
  }
}
