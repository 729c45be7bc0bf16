/** The CSV columns of tools/nlance2table.cpp: the header flattens a schema's structs to dotted names, each row
    flattens its values in the same order. */
module Table {

  /** A field of a schema; a struct has the format "+s". */
  datatype Schema = Schema(name: string, format: string, children: seq<Schema>)

  /** A column's value in one row: its text when it is a scalar, the values of its children when it is a struct. */
  datatype Value = Value(isNull: bool, text: string, children: seq<Value>)

  predicate IsStruct(s: Schema) {
    s.format == "+s"
  }

  /** A value of this field: a struct has a value a child. */
  ghost predicate Fits(v: Value, s: Schema)
    decreases s
  {
    IsStruct(s) ==>
      |v.children| == |s.children| && forall i :: 0 <= i < |s.children| ==> Fits(v.children[i], s.children[i])
  }

  function Dotted(prefix: string, name: string): string {
    if prefix == "" then name else prefix + "." + name
  }

  // ---- the reference: every leaf of a row, its name and its text -----------------------------------

  datatype Cell = Cell(name: string, text: string)

  /** The leaves of a field, in the order of its children; a struct without children is a leaf. Under a null struct
      (`blank`), and at a null leaf, the text is empty. */
  ghost function Leaves(v: Value, s: Schema, prefix: string, blank: bool): (l: seq<Cell>)
    requires Fits(v, s)
    ensures |l| >= 1
    decreases s, |s.children| + 1
  {
    if IsStruct(s) && |s.children| > 0 then LeavesOf(v, s, prefix, blank || v.isNull, |s.children|)
    else [Cell(prefix, if blank || v.isNull || IsStruct(s) then "" else v.text)]
  }

  ghost function LeavesOf(v: Value, s: Schema, prefix: string, blank: bool, n: nat): (l: seq<Cell>)
    requires Fits(v, s) && IsStruct(s) && n <= |s.children|
    ensures |l| >= n
    decreases s, n
  {
    if n == 0 then []
    else
      LeavesOf(v, s, prefix, blank, n - 1)
      + Leaves(v.children[n - 1], s.children[n - 1], Dotted(prefix, s.children[n - 1].name), blank)
  }

  function Texts(l: seq<Cell>): (t: seq<string>)
    ensures |t| == |l| && forall i :: 0 <= i < |t| ==> t[i] == l[i].text
  {
    seq(|l|, i requires 0 <= i < |l| => l[i].text)
  }

  function Names(l: seq<Cell>): (t: seq<string>)
    ensures |t| == |l| && forall i :: 0 <= i < |t| ==> t[i] == l[i].name
  {
    seq(|l|, i requires 0 <= i < |l| => l[i].name)
  }

  // ---- the header ----------------------------------------------------------------------------------

  ghost function Header(s: Schema, prefix: string): (h: seq<string>)
    ensures |h| >= 1
    decreases s, |s.children| + 1
  {
    if |s.children| > 0 && IsStruct(s) then HeaderOf(s, prefix, |s.children|) else [prefix]
  }

  ghost function HeaderOf(s: Schema, prefix: string, n: nat): (h: seq<string>)
    requires n <= |s.children|
    ensures |h| >= n
    decreases s, n
  {
    if n == 0 then []
    else HeaderOf(s, prefix, n - 1) + Header(s.children[n - 1], Dotted(prefix, s.children[n - 1].name))
  }

  /** `csv_header_names`. */
  method HeaderNames(s: Schema, prefix: string, out: seq<string>) returns (r: seq<string>)
    ensures r == out + Header(s, prefix)
    decreases s
  {
    hide Dotted;
    r := out;
    if |s.children| > 0 && IsStruct(s) {
      for i := 0 to |s.children|
        invariant r == out + HeaderOf(s, prefix, i)
      {
        var child := s.children[i];
        ghost var names := Header(child, Dotted(prefix, child.name));
        assert out + (HeaderOf(s, prefix, i) + names) == out + HeaderOf(s, prefix, i) + names;
        r := HeaderNames(child, Dotted(prefix, child.name), r);
      }
    } else {
      r := r + [prefix];
    }
  }

  lemma NamesPlus(l: seq<Cell>, m: seq<Cell>)
    ensures Names(l + m) == Names(l) + Names(m)
  {
  }

  /** The header names the leaves, whatever the values. */
  lemma {:induction false} HeaderIsLeaves(v: Value, s: Schema, prefix: string, blank: bool)
    requires Fits(v, s)
    ensures Header(s, prefix) == Names(Leaves(v, s, prefix, blank))
    decreases s, |s.children| + 1
  {
    if IsStruct(s) && |s.children| > 0 {
      HeaderOfIsLeaves(v, s, prefix, blank || v.isNull, |s.children|);
    }
  }

  lemma {:induction false} HeaderOfIsLeaves(v: Value, s: Schema, prefix: string, blank: bool, n: nat)
    requires Fits(v, s) && IsStruct(s) && n <= |s.children|
    ensures HeaderOf(s, prefix, n) == Names(LeavesOf(v, s, prefix, blank, n))
    decreases s, n
  {
    hide Names, Dotted;
    if n > 0 {
      var child, name := s.children[n - 1], Dotted(prefix, s.children[n - 1].name);
      HeaderOfIsLeaves(v, s, prefix, blank, n - 1);
      HeaderIsLeaves(v.children[n - 1], child, name, blank);
      NamesPlus(LeavesOf(v, s, prefix, blank, n - 1), Leaves(v.children[n - 1], child, name, blank));
    }
  }

  // ---- the rows ------------------------------------------------------------------------------------

  ghost function Cells(v: Value, s: Schema): (c: seq<string>)
    requires Fits(v, s)
    decreases s, |s.children| + 1
  {
    if IsStruct(s) then CellsOf(v, s, |s.children|) else [if v.isNull then "" else v.text]
  }

  ghost function CellsOf(v: Value, s: Schema, n: nat): (c: seq<string>)
    requires Fits(v, s) && IsStruct(s) && n <= |s.children|
    decreases s, n
  {
    if n == 0 then []
    else CellsOf(v, s, n - 1) + if v.isNull then [""] else Cells(v.children[n - 1], s.children[n - 1])
  }

  /** `csv_row_cells`: one empty cell a direct child of a null struct. */
  method RowCells(v: Value, s: Schema, cells: seq<string>) returns (r: seq<string>)
    requires Fits(v, s)
    ensures r == cells + Cells(v, s)
    decreases s
  {
    r := cells;
    if IsStruct(s) {
      for i := 0 to |s.children|
        invariant r == cells + CellsOf(v, s, i)
      {
        if v.isNull {
          r := r + [""];
        } else {
          r := RowCells(v.children[i], s.children[i], r);
        }
      }
    } else {
      r := r + [if v.isNull then "" else v.text];
    }
  }

  /** A field of one column: a scalar, an empty struct, or a struct whose only child is such a field. */
  predicate OneColumn(s: Schema)
    decreases s
  {
    IsStruct(s) && |s.children| > 0 ==> |s.children| == 1 && OneColumn(s.children[0])
  }

  /** No empty struct is reached, and no null struct with a child of more than one column. */
  ghost predicate Even(v: Value, s: Schema)
    requires Fits(v, s)
    decreases s
  {
    IsStruct(s) ==>
      && |s.children| > 0
      && forall i :: 0 <= i < |s.children| ==>
           if v.isNull then OneColumn(s.children[i]) else Even(v.children[i], s.children[i])
  }

  ghost predicate EvenChild(v: Value, s: Schema, i: nat)
    requires Fits(v, s) && IsStruct(s) && i < |s.children|
  {
    if v.isNull then OneColumn(s.children[i]) else Even(v.children[i], s.children[i])
  }

  lemma EvenIs(v: Value, s: Schema)
    requires Fits(v, s) && IsStruct(s) && |s.children| > 0
    ensures Even(v, s) <==> forall i :: 0 <= i < |s.children| ==> EvenChild(v, s, i)
  {
    if forall i :: 0 <= i < |s.children| ==> EvenChild(v, s, i) {
      forall i | 0 <= i < |s.children|
        ensures if v.isNull then OneColumn(s.children[i]) else Even(v.children[i], s.children[i])
      {
        assert EvenChild(v, s, i);
      }
    }
  }

  // ---- a row under its header ----------------------------------------------------------------------

  /** Under a null struct every text is empty, and a field of one column is one leaf. */
  lemma {:induction false} BlankLeaves(v: Value, s: Schema, prefix: string)
    requires Fits(v, s)
    ensures forall c :: c in Leaves(v, s, prefix, true) ==> c.text == ""
    ensures |Leaves(v, s, prefix, true)| == 1 <==> OneColumn(s)
    decreases s, |s.children| + 1
  {
    if IsStruct(s) && |s.children| > 0 {
      BlankLeavesOf(v, s, prefix, |s.children|);
      var child := s.children[0];
      BlankLeaves(v.children[0], child, Dotted(prefix, child.name));
      assert |LeavesOf(v, s, prefix, true, 1)| == |Leaves(v.children[0], child, Dotted(prefix, child.name), true)|;
    }
  }

  lemma {:induction false} BlankLeavesOf(v: Value, s: Schema, prefix: string, n: nat)
    requires Fits(v, s) && IsStruct(s) && n <= |s.children|
    ensures forall c :: c in LeavesOf(v, s, prefix, true, n) ==> c.text == ""
    decreases s, n
  {
    if n > 0 {
      BlankLeavesOf(v, s, prefix, n - 1);
      BlankLeaves(v.children[n - 1], s.children[n - 1], Dotted(prefix, s.children[n - 1].name));
    }
  }

  /** The cells are never more than the leaves; they are as many exactly when the row is even, and then each is the
      text of its leaf. */
  ghost predicate Under(cells: seq<string>, l: seq<Cell>, even: bool) {
    |cells| <= |l| && (|cells| == |l| <==> even) && (even ==> cells == Texts(l))
  }

  lemma UnderBoth(a: seq<string>, l: seq<Cell>, even: bool, b: seq<string>, m: seq<Cell>, even': bool)
    requires Under(a, l, even) && Under(b, m, even')
    ensures Under(a + b, l + m, even && even')
  {
    assert Texts(l + m) == Texts(l) + Texts(m);
  }

  lemma {:induction false} CellsUnder(v: Value, s: Schema, prefix: string)
    requires Fits(v, s)
    ensures Under(Cells(v, s), Leaves(v, s, prefix, false), Even(v, s))
    decreases s, |s.children| + 1
  {
    if IsStruct(s) && |s.children| > 0 {
      hide Under;
      var even := CellsOfUnder(v, s, prefix, |s.children|);
      EvenIs(v, s);
    }
  }

  lemma {:induction false} CellsOfUnder(v: Value, s: Schema, prefix: string, n: nat) returns (even: bool)
    requires Fits(v, s) && IsStruct(s) && n <= |s.children|
    ensures even <==> forall i :: 0 <= i < n ==> EvenChild(v, s, i)
    ensures Under(CellsOf(v, s, n), LeavesOf(v, s, prefix, v.isNull, n), even)
    decreases s, n
  {
    even := true;
    if n > 0 {
      var before := CellsOfUnder(v, s, prefix, n - 1);
      var child, name := s.children[n - 1], Dotted(prefix, s.children[n - 1].name);
      var l := Leaves(v.children[n - 1], child, name, v.isNull);
      var cells := if v.isNull then [""] else Cells(v.children[n - 1], child);
      if v.isNull {
        BlankLeaves(v.children[n - 1], child, name);
        BlankUnder(l, OneColumn(child));
      } else {
        CellsUnder(v.children[n - 1], child, name);
      }
      UnderBoth(CellsOf(v, s, n - 1), LeavesOf(v, s, prefix, v.isNull, n - 1), before, cells, l,
                EvenChild(v, s, n - 1));
      even := before && EvenChild(v, s, n - 1);
    }
  }

  lemma BlankUnder(l: seq<Cell>, one: bool)
    requires |l| >= 1 && (|l| == 1 <==> one) && forall c :: c in l ==> c.text == ""
    ensures Under([""], l, one)
  {
    if one {
      assert l == [l[0]] && l[0] in l;
      assert Texts(l) == [""];
    }
  }

  /** A row's cells stand under their own names exactly when the row is even; otherwise there are too few. */
  lemma RowUnderHeader(v: Value, s: Schema, prefix: string)
    requires Fits(v, s)
    ensures Header(s, prefix) == Names(Leaves(v, s, prefix, false))
    ensures |Cells(v, s)| == |Header(s, prefix)| <==> Even(v, s)
    ensures Cells(v, s) == Texts(Leaves(v, s, prefix, false)) <==> Even(v, s)
    ensures !Even(v, s) ==> |Cells(v, s)| < |Header(s, prefix)|
  {
    hide Even, Cells, Leaves, Header;
    HeaderIsLeaves(v, s, prefix, false);
    CellsUnder(v, s, prefix);
  }

  /** A null struct holding a struct of two scalars prints one cell for two columns. */
  lemma NullStructShort()
    ensures exists v, s ::
      && Fits(v, s) && s.children != [] && s.children[0].children != []
      && |Header(s, "")| == 2 && |Cells(v, s)| == 1
  {
    var leaf, one := Schema("x", "i", []), Value(false, "1", []);
    var inner := Schema("in", "+s", [leaf, leaf]);
    var s := Schema("out", "+s", [inner]);
    var v := Value(true, "", [Value(true, "", [one, one])]);
    assert Fits(v.children[0], inner) && Fits(v, s);
    assert |HeaderOf(inner, "in", 1)| == 1;
    assert |HeaderOf(inner, "in", 2)| == 2;
    assert |HeaderOf(s, "", 1)| == 2;
    assert |CellsOf(v, s, 1)| == 1;
  }

  /** A struct without children has a name in the header and no cell. */
  lemma EmptyStructShort(name: string, v: Value)
    requires v.children == [] && name != ""
    ensures var s := Schema(name, "+s", []);
            Fits(v, s) && Header(s, name) == [name] && Cells(v, s) == []
  {
  }
}
