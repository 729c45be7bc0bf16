/** `unravel` of src/encoding/repdef.cpp as it runs: the level vectors rewritten in place, layer after layer. */
module UnravelPage {
  import opened Options
  import opened Levels
  import opened Unravel
  import opened RepDef
  import opened Validity

  /** One layer of the result, its validity as a bitmap. */
  datatype OutLayer = OutLayer(kind: Kind, bits: Bits, offsets: seq<nat>)

  ghost predicate Shows(out: OutLayer, layer: Layer) {
    match layer
    case Flat(valid) => Holds(out.bits, valid) && out.offsets == []
    case Lists(offsets, valid) => Holds(out.bits, valid) && out.offsets == offsets
  }

  /** Two vectors as one stream; definition levels that are not there are zero. */
  function Zip(rep: seq<nat>, def: seq<nat>, hasDef: bool): (ls: seq<Level>)
    requires hasDef ==> |def| >= |rep|
    ensures |ls| == |rep| && forall i :: 0 <= i < |ls| ==> ls[i] == Level(rep[i], if hasDef then def[i] else 0)
  {
    seq(|rep|, i requires 0 <= i < |rep| => Level(rep[i], if hasDef then def[i] else 0))
  }

  // ---- the pass, position by position --------------------------------------------------------------

  const START := Pass([], 0, [], [])

  lemma RunPush(m: Marks, ls: seq<Level>, i: nat)
    requires i < |ls|
    ensures Run(START, m, ls[..i + 1]) == Step(Run(START, m, ls[..i]), m, ls[i])
  {
    hide Step, Run;
    assert ls[..i + 1] == ls[..i] + [ls[i]];
    RunAppend(START, m, ls[..i], [ls[i]]);
    RunOne(Run(START, m, ls[..i]), m, ls[i]);
  }

  /** Levels that continue the current list. */
  lemma {:induction false} RunZeros(m: Marks, ls: seq<Level>, a: nat, b: nat)
    requires a <= b <= |ls| && forall i :: a <= i < b ==> ls[i].rep == 0
    ensures var p := Run(START, m, ls[..a]); Run(START, m, ls[..b]) == p.(children := p.children + (b - a))
    decreases b - a
  {
    hide Run;
    if a < b {
      RunZeros(m, ls, a, b - 1);
      RunPush(m, ls, b - 1);
    }
  }

  /** The end of the run of zeros that starts before `end`: sixteen at a time, then one at a time. */
  method SkipZeros(rep: array<nat>, num: nat, from: nat) returns (end: nat)
    requires from < num <= rep.Length && rep[from] == 0
    ensures from < end <= num && forall i :: from <= i < end ==> rep[i] == 0
    ensures end < num ==> rep[end] != 0
  {
    end := from + 1;
    while end + 16 <= num && forall i :: end <= i < end + 16 ==> rep[i] == 0
      invariant from < end <= num && forall i :: from <= i < end ==> rep[i] == 0
    {
      end := end + 16;
    }
    while end < num && rep[end] == 0
      invariant from < end <= num && forall i :: from <= i < end ==> rep[i] == 0
    {
      end := end + 1;
    }
  }

  /** What a level that starts a list here, or around here, adds. */
  function Found(m: Marks, def: nat): Option<(bool, bool)> {
    if def == 0 then Some((true, true))
    else if def > m.top then None
    else if (m.nullLevel != 0 && def == m.nullLevel) || def > m.own then Some((false, false))
    else if m.emptyLevel != 0 && def == m.emptyLevel then Some((true, false))
    else Some((true, true))
  }

  lemma FoundStep(p: Pass, m: Marks, rep: nat, def: nat)
    requires rep > 0
    ensures var q := Step(p, m, Level(rep, def));
      && q.out == p.out + [Level(rep - 1, def)]
      && (Found(m, def).None? ==> q.offsets == p.offsets && q.children == p.children && q.valid == p.valid)
      && (Found(m, def).Some? ==>
            q.offsets == p.offsets + [p.children] && q.valid == p.valid + [Found(m, def).value.0]
            && q.children == p.children + One(Found(m, def).value.1))
  {
  }

  /** A list layer: the levels that start one of its lists, or something around it, move to the front. */
  method ListLayer(rep: array<nat>, def: array<nat>, num: nat, hasDef: bool, m: Marks)
    returns (offsets: seq<nat>, bits: Bits, children: nat, write: nat, ghost valid: seq<bool>)
    requires rep != def && num <= rep.Length && (hasDef ==> num <= def.Length)
    modifies rep, def
    ensures write <= num && Holds(bits, valid)
    ensures Run(START, m, old(Zip(rep[..num], def[..], hasDef)))
         == Pass(offsets, children, valid, Zip(rep[..write], def[..], hasDef))
  {
    hide Holds, Run, Step, Found, Append, Same, Zip;
    ghost var ls := Zip(rep[..num], def[..], hasDef);
    offsets, bits, children, write, valid := [], NONE, 0, 0, [];
    NothingHeld();
    RunNone(START, m);
    assert ls[..0] == [];
    AllSame(rep[..], def[..], hasDef, num);
    var read := 0;
    while read < num
      invariant write <= read <= num && Holds(bits, valid)
      invariant Same(rep[read..num], def[..], hasDef, read, ls)
      invariant Run(START, m, ls[..read]) == Pass(offsets, children, valid, Zip(rep[..write], def[..], hasDef))
    {
      var r := rep[read];
      HeadSame(rep[..], def[..], hasDef, read, num, ls);
      if r == 0 {
        var end := SkipZeros(rep, num, read);
        ZerosAhead(rep[..], def[..], hasDef, read, end, num, ls);
        RunZeros(m, ls, read, end);
        children := children + (end - read);
        read := end;
      } else {
        var d := if hasDef then def[read] else 0;
        RunPush(m, ls, read);
        FoundStep(Pass(offsets, children, valid, Zip(rep[..write], def[..], hasDef)), m, r, d);
        ghost var rep0, def0 := rep[..], def[..];
        rep[write] := r - 1;
        if hasDef {
          def[write] := d;
        }
        StoredOne(rep0, def0, hasDef, write, read, num, Level(r - 1, d), rep[..], def[..], ls);
        var found := Found(m, d);
        if found.Some? {
          offsets := offsets + [children];
          AppendHolds(bits, valid, found.value.0);
          bits, valid := Append(bits, found.value.0), valid + [found.value.0];
          children := children + One(found.value.1);
        }
        write, read := write + 1, read + 1;
      }
    }
    assert ls[..num] == ls;
  }

  lemma NothingHeld()
    ensures Holds(NONE, [])
  {
  }

  /** The levels from `read` on are still as they were. */
  ghost predicate Same(rep: seq<nat>, def: seq<nat>, hasDef: bool, read: nat, ls: seq<Level>) {
    read + |rep| == |ls| && (hasDef ==> |def| >= |ls|)
    && forall i :: 0 <= i < |rep| ==> ls[read + i] == Level(rep[i], if hasDef then def[read + i] else 0)
  }

  lemma AllSame(rep: seq<nat>, def: seq<nat>, hasDef: bool, num: nat)
    requires num <= |rep| && (hasDef ==> num <= |def|)
    ensures Same(rep[0..num], def, hasDef, 0, Zip(rep[..num], def, hasDef)) && Zip(rep[..0], def, hasDef) == []
  {
  }

  lemma HeadSame(rep: seq<nat>, def: seq<nat>, hasDef: bool, read: nat, num: nat, ls: seq<Level>)
    requires read < num <= |rep| && Same(rep[read..num], def, hasDef, read, ls)
    ensures |ls| == num && (hasDef ==> |def| >= num) && ls[read] == Level(rep[read], if hasDef then def[read] else 0)
  {
    assert ls[read + 0] == ls[read];
  }

  lemma ZerosAhead(rep: seq<nat>, def: seq<nat>, hasDef: bool, read: nat, end: nat, num: nat, ls: seq<Level>)
    requires read <= end <= num <= |rep| && Same(rep[read..num], def, hasDef, read, ls)
    requires forall i :: read <= i < end ==> rep[i] == 0
    ensures forall i :: read <= i < end ==> ls[i].rep == 0
    ensures Same(rep[end..num], def, hasDef, end, ls)
  {
    var here, after := rep[read..num], rep[end..num];
    forall i | read <= i < end ensures ls[i].rep == 0 {
      assert ls[read + (i - read)] == Level(here[i - read], if hasDef then def[read + (i - read)] else 0);
    }
    forall i | 0 <= i < |after| ensures ls[end + i] == Level(after[i], if hasDef then def[end + i] else 0) {
      var j := end - read + i;
      assert ls[read + j] == Level(here[j], if hasDef then def[read + j] else 0) && here[j] == after[i];
    }
  }

  /** Writing one level at `write`, at or before `read`. */
  lemma StoredOne(rep0: seq<nat>, def0: seq<nat>, hasDef: bool, write: nat, read: nat, num: nat, l: Level,
                  rep: seq<nat>, def: seq<nat>, ls: seq<Level>)
    requires write <= read < num <= |rep0| && (hasDef ==> num <= |def0|)
    requires rep == rep0[write := l.rep] && def == (if hasDef then def0[write := l.def] else def0)
    requires (!hasDef ==> l.def == 0) && Same(rep0[read..num], def0, hasDef, read, ls)
    ensures Zip(rep[..write + 1], def, hasDef) == Zip(rep0[..write], def0, hasDef) + [l]
    ensures Same(rep[read + 1..num], def, hasDef, read + 1, ls)
  {
  }

  // ---- an item or struct layer ---------------------------------------------------------------------

  lemma BitsPush(table: seq<nat>, depth: nat, nullable: bool, own: nat, ls: seq<Level>, i: nat)
    requires i < |ls| && ls[i].def < |table|
    ensures ItemBits(table, depth, nullable, own, ls[..i + 1]) == ItemBits(table, depth, nullable, own, ls[..i])
      + if table[ls[i].def] <= depth then [!nullable || ls[i].def <= own] else []
  {
    hide ItemBits;
    assert ls[..i + 1] == ls[..i] + [ls[i]];
    BitsAppend(table, depth, nullable, own, ls[..i], [ls[i]]);
    BitsOne(table, depth, nullable, own, ls[i]);
  }

  /** The definition levels in sight, one validity bit each. */
  method ItemLayer(def: array<nat>, num: nat, table: seq<nat>, depth: nat, nullable: bool, own: nat,
                   ghost ls: seq<Level>)
    returns (bits: Bits)
    requires num == |ls| <= def.Length
    requires forall i :: 0 <= i < num ==> ls[i].def == def[i] < |table|
    ensures Holds(bits, ItemBits(table, depth, nullable, own, ls))
  {
    hide Holds, ItemBits, Append;
    bits := NONE;
    ghost var valid: seq<bool> := [];
    NothingHeld();
    NoBits(table, depth, nullable, own);
    assert ls[..0] == [];
    for i := 0 to num
      invariant Holds(bits, valid) && valid == ItemBits(table, depth, nullable, own, ls[..i])
    {
      BitsPush(table, depth, nullable, own, ls, i);
      if table[def[i]] <= depth {
        AppendHolds(bits, valid, !nullable || def[i] <= own);
        bits, valid := Append(bits, !nullable || def[i] <= own), valid + [!nullable || def[i] <= own];
      }
    }
    assert ls[..num] == ls;
  }

  lemma NoBits(table: seq<nat>, depth: nat, nullable: bool, own: nat)
    ensures ItemBits(table, depth, nullable, own, []) == []
  {
  }

  /** Without definition levels every entry is there and valid. */
  lemma {:induction false} AllThere(table: seq<nat>, depth: nat, nullable: bool, own: nat, ls: seq<Level>)
    requires table != [] && table[0] == 0 && forall i :: 0 <= i < |ls| ==> ls[i].def == 0
    ensures Holds(Bits(|ls|, [], 0), ItemBits(table, depth, nullable, own, ls))
    ensures |ItemBits(table, depth, nullable, own, ls)| == |ls|
    decreases |ls|
  {
    hide ItemBits, Nulls;
    if ls == [] {
      NoBits(table, depth, nullable, own);
      NothingHeld();
    } else {
      var n := |ls| - 1;
      AllThere(table, depth, nullable, own, ls[..n]);
      assert ls[..n + 1] == ls;
      BitsPush(table, depth, nullable, own, ls, n);
      NullsPush(ItemBits(table, depth, nullable, own, ls[..n]), true);
    }
  }

  // ---- the page ------------------------------------------------------------------------------------

  function ListsIn(kinds: seq<Kind>, li: nat): nat
    requires li <= |kinds|
  {
    if li == 0 then 0 else ListsIn(kinds, li - 1) + One(!IsItemKind(kinds[li - 1]))
  }

  /** levels_to_rep after the first li kinds. */
  function TableOf(kinds: seq<Kind>, li: nat): (t: seq<nat>)
    requires li <= |kinds|
    ensures t != [] && t[0] == 0
  {
    if li == 0 then [0]
    else
      var depth, kind := ListsIn(kinds, li), kinds[li - 1];
      TableOf(kinds, li - 1) + OneIf(depth, HasNull(kind)) + OneIf(depth, HasEmpty(kind))
  }

  predicate KnownKinds(kinds: seq<Kind>) {
    forall i :: 0 <= i < |kinds| ==> !kinds[i].Unknown?
  }

  /** The first loop: the table, or a refusal of an unknown layer. */
  method BuildTable(kinds: seq<Kind>) returns (table: Option<seq<nat>>, lists: nat)
    ensures table.Some? <==> KnownKinds(kinds)
    ensures table.Some? ==> table.value == TableOf(kinds, |kinds|) && lists == ListsIn(kinds, |kinds|)
  {
    var t: seq<nat> := [0];
    lists := 0;
    for li := 0 to |kinds|
      invariant t == TableOf(kinds, li) && lists == ListsIn(kinds, li)
      invariant forall i :: 0 <= i < li ==> !kinds[i].Unknown?
    {
      var kind := kinds[li];
      match kind
      case AllValidItem =>
      case AllValidList => lists := lists + 1;
      case NullableItem => t := t + [lists];
      case NullableList => lists := lists + 1; t := t + [lists];
      case EmptyableList => lists := lists + 1; t := t + [lists];
      case NullAndEmptyList => lists := lists + 1; t := t + [lists]; t := t + [lists];
      case Unknown(_) => return None, 0;
    }
    table := Some(t);
  }

  /** What a page must satisfy before its levels are looked at. */
  predicate Accepted(rep: seq<nat>, hasRep: bool, def: seq<nat>, hasDef: bool, kinds: seq<Kind>,
                     numItems: Option<nat>) {
    && kinds != [] && IsItemKind(kinds[0]) && KnownKinds(kinds)
    && (ListsIn(kinds, |kinds|) != 0 <==> hasRep)
    && (hasRep && hasDef ==> |rep| == |def|)
    && (!hasRep && hasDef && numItems.Some? ==> |def| == numItems.value)
    && (hasDef ==> forall i :: 0 <= i < |def| ==> def[i] < |TableOf(kinds, |kinds|)|)
    && (hasRep ==> forall i :: 0 <= i < |rep| ==> rep[i] <= ListsIn(kinds, |kinds|))
    && (hasRep && rep != [] ==> rep[0] == ListsIn(kinds, |kinds|))
    && (!hasRep && !hasDef ==> numItems.Some?)
  }

  /** The page's levels as one stream; those that are not stored are zero. */
  function PageLevels(rep: seq<nat>, hasRep: bool, def: seq<nat>, hasDef: bool, numItems: Option<nat>): seq<Level> {
    if hasRep then if hasDef && |def| < |rep| then [] else Zip(rep, def, hasDef)
    else if hasDef then seq(|def|, i requires 0 <= i < |def| => Level(0, def[i]))
    else seq(if numItems.Some? then numItems.value else 0, _ => Level(0, 0))
  }

  ghost function UnravelOf(rep: seq<nat>, hasRep: bool, def: seq<nat>, hasDef: bool, kinds: seq<Kind>,
                           numItems: Option<nat>): Option<seq<Layer>>
  {
    if !Accepted(rep, hasRep, def, hasDef, kinds, numItems) then None
    else
      Peel(kinds, 0, TableOf(kinds, |kinds|), PageLevels(rep, hasRep, def, hasDef, numItems), 0, 0, 0, numItems)
  }

  /** Layers already there, and the rest. */
  function Prepend(done: seq<Layer>, rest: Option<seq<Layer>>): Option<seq<Layer>> {
    match rest
    case None => None
    case Some(layers) => Some(done + layers)
  }

  lemma PrependPush(done: seq<Layer>, layer: Layer, rest: Option<seq<Layer>>)
    ensures Prepend(done, Push(layer, rest)) == Prepend(done + [layer], rest)
  {
    if rest.Some? { assert done + ([layer] + rest.value) == done + [layer] + rest.value; }
  }

  ghost predicate ShowsAll(out: seq<OutLayer>, layers: seq<Layer>) {
    |out| == |layers| && forall i :: 0 <= i < |out| ==> Shows(out[i], layers[i])
  }

  ghost predicate DefsBelow(ls: seq<Level>, n: nat) {
    forall i :: 0 <= i < |ls| ==> ls[i].def < n
  }

  lemma {:induction false} RunDefs(p: Pass, m: Marks, ls: seq<Level>, n: nat)
    requires DefsBelow(p.out, n) && DefsBelow(ls, n)
    ensures DefsBelow(Run(p, m, ls).out, n)
    decreases |ls|
  {
    if ls != [] {
      RunDefs(Step(p, m, ls[0]), m, ls[1..], n);
    }
  }

  lemma PeelItemIs(kinds: seq<Kind>, li: nat, table: seq<nat>, ls: seq<Level>, used: nat, depth: nat, inner: nat,
                   numItems: Option<nat>)
    requires li < |kinds| && IsItemKind(kinds[li])
    ensures
      var nullable := kinds[li].NullableItem?;
      var bits := ItemBits(table, depth, nullable, used, ls);
      Peel(kinds, li, table, ls, used, depth, inner, numItems) ==
        if (li == 0 && numItems.Some? && |bits| != numItems.value) || (li != 0 && |bits| != inner) then None
        else Push(Flat(bits), Peel(kinds, li + 1, table, ls, used + One(nullable), depth, |bits|, numItems))
  {
    hide ItemBits, Push;
  }

  lemma PeelListIs(kinds: seq<Kind>, li: nat, table: seq<nat>, ls: seq<Level>, used: nat, depth: nat, inner: nat,
                   numItems: Option<nat>)
    requires li < |kinds| && !IsItemKind(kinds[li])
    ensures
      var m := MarksFor(kinds, li, used);
      var p := Run(START, m, ls);
      Peel(kinds, li, table, ls, used, depth, inner, numItems) ==
        if p.children != inner then None
        else Push(Lists(p.offsets + [p.children], p.valid),
                  Peel(kinds, li + 1, table, p.out, m.own, depth + 1, |p.valid|, numItems))
  {
    hide Run, Push, MarksFor;
  }

  lemma AcceptedParts(rep: seq<nat>, hasRep: bool, def: seq<nat>, hasDef: bool, kinds: seq<Kind>, numItems: Option<nat>)
    requires Accepted(rep, hasRep, def, hasDef, kinds, numItems)
    ensures (hasRep && hasDef ==> |rep| == |def|) && (!hasRep && !hasDef ==> numItems.Some?)
    ensures DefsBelow(PageLevels(rep, hasRep, def, hasDef, numItems), |TableOf(kinds, |kinds|)|)
    ensures TableOf(kinds, |kinds|) != [] && TableOf(kinds, |kinds|)[0] == 0
  {
    hide TableOf, ListsIn;
    var ls, n := PageLevels(rep, hasRep, def, hasDef, numItems), |TableOf(kinds, |kinds|)|;
    forall i | 0 <= i < |ls| ensures ls[i].def < n {
      if hasDef { assert ls[i].def == def[i]; } else { assert ls[i].def == 0; }
    }
  }

  lemma PrependNone(rest: Option<seq<Layer>>)
    ensures Prepend([], rest) == rest
  {
    if rest.Some? { assert [] + rest.value == rest.value; }
  }

  lemma PrependAll(done: seq<Layer>)
    ensures Prepend(done, Some([])) == Some(done)
  {
    assert done + [] == done;
  }

  /** One item or struct layer of the specification. */
  lemma ItemTurn(whole: Option<seq<Layer>>, done: seq<Layer>, kinds: seq<Kind>, li: nat, table: seq<nat>,
                 ls: seq<Level>, used: nat, depth: nat, inner: nat, numItems: Option<nat>, length: nat)
    requires li < |kinds| && IsItemKind(kinds[li])
    requires whole == Prepend(done, Peel(kinds, li, table, ls, used, depth, inner, numItems))
    requires length == |ItemBits(table, depth, kinds[li].NullableItem?, used, ls)|
    ensures (li == 0 && numItems.Some? && length != numItems.value) || (li != 0 && length != inner) ==> whole == None
    ensures !((li == 0 && numItems.Some? && length != numItems.value) || (li != 0 && length != inner)) ==>
      whole == Prepend(done + [Flat(ItemBits(table, depth, kinds[li].NullableItem?, used, ls))],
                       Peel(kinds, li + 1, table, ls, used + One(kinds[li].NullableItem?), depth, length, numItems))
  {
    hide Peel, ItemBits, Push;
    var nullable := kinds[li].NullableItem?;
    PeelItemIs(kinds, li, table, ls, used, depth, inner, numItems);
    PrependPush(done, Flat(ItemBits(table, depth, nullable, used, ls)),
                Peel(kinds, li + 1, table, ls, used + One(nullable), depth, length, numItems));
  }

  /** One list layer of it. */
  lemma ListTurn(whole: Option<seq<Layer>>, done: seq<Layer>, kinds: seq<Kind>, li: nat, table: seq<nat>,
                 ls: seq<Level>, used: nat, depth: nat, inner: nat, numItems: Option<nat>, m: Marks, p: Pass)
    requires li < |kinds| && !IsItemKind(kinds[li]) && m == MarksFor(kinds, li, used) && p == Run(START, m, ls)
    requires whole == Prepend(done, Peel(kinds, li, table, ls, used, depth, inner, numItems))
    ensures p.children != inner ==> whole == None
    ensures p.children == inner ==>
      whole == Prepend(done + [Lists(p.offsets + [p.children], p.valid)],
                       Peel(kinds, li + 1, table, p.out, m.own, depth + 1, |p.valid|, numItems))
  {
    hide Peel, Run, Push, MarksFor;
    PeelListIs(kinds, li, table, ls, used, depth, inner, numItems);
    PrependPush(done, Lists(p.offsets + [p.children], p.valid),
                Peel(kinds, li + 1, table, p.out, m.own, depth + 1, |p.valid|, numItems));
  }

  lemma ShowsNothing()
    ensures ShowsAll([], [])
  {
  }

  lemma ShowsPush(out: seq<OutLayer>, layers: seq<Layer>, o: OutLayer, l: Layer)
    requires ShowsAll(out, layers) && Shows(o, l)
    ensures ShowsAll(out + [o], layers + [l])
  {
    hide Shows;
  }

  lemma EmptyBelow(n: nat)
    ensures DefsBelow([], n)
  {
  }

  lemma ShowsFlat(out: OutLayer, valid: seq<bool>)
    requires Holds(out.bits, valid) && out.offsets == []
    ensures Shows(out, Flat(valid)) && out.bits.length == |valid|
  {
  }

  lemma ShowsLists(out: OutLayer, offsets: seq<nat>, valid: seq<bool>)
    requires Holds(out.bits, valid) && out.offsets == offsets
    ensures Shows(out, Lists(offsets, valid)) && out.bits.length == |valid|
  {
  }

  /** An item or struct layer, with or without definition levels. */
  method OneItemLayer(d: array<nat>, num: nat, hasDef: bool, table: seq<nat>, depth: nat, nullable: bool, own: nat,
                      ghost ls: seq<Level>)
    returns (bits: Bits)
    requires num == |ls| && (hasDef ==> num <= d.Length) && DefsBelow(ls, |table|) && table != [] && table[0] == 0
    requires forall i :: 0 <= i < num ==> ls[i].def == if hasDef then d[i] else 0
    ensures Holds(bits, ItemBits(table, depth, nullable, own, ls))
    ensures bits.length == |ItemBits(table, depth, nullable, own, ls)|
  {
    hide ItemBits;
    if hasDef {
      bits := ItemLayer(d, num, table, depth, nullable, own, ls);
    } else {
      AllThere(table, depth, nullable, own, ls);
      bits := Bits(num, [], 0);
    }
  }

  /** The checks before the layers. */
  method Check(rep: seq<nat>, hasRep: bool, def: seq<nat>, hasDef: bool, kinds: seq<Kind>, numItems: Option<nat>)
    returns (table: Option<seq<nat>>)
    ensures table.Some? <==> Accepted(rep, hasRep, def, hasDef, kinds, numItems)
    ensures table.Some? ==> table.value == TableOf(kinds, |kinds|)
  {
    hide TableOf, ListsIn, KnownKinds;
    if kinds == [] || !IsItemKind(kinds[0]) {
      return None;
    }
    var levels, lists := BuildTable(kinds);
    if levels.None? || (lists != 0) != hasRep || (hasRep && hasDef && |rep| != |def|) {
      return None;
    }
    if !hasRep && hasDef && numItems.Some? && |def| != numItems.value {
      return None;
    }
    if hasDef && exists i :: 0 <= i < |def| && def[i] >= |levels.value| {
      return None;
    }
    if hasRep {
      if exists i :: 0 <= i < |rep| && rep[i] > lists {
        return None;
      }
      if rep != [] && rep[0] != lists {
        return None;
      }
    }
    if !hasRep && !hasDef && numItems.None? {
      return None;
    }
    table := levels;
  }

  /** The vectors the layers are peeled from; absent repetition levels stand as zeros. */
  method LoadLevels(rep: seq<nat>, hasRep: bool, def: seq<nat>, hasDef: bool, numItems: Option<nat>)
    returns (r: array<nat>, d: array<nat>, num: nat)
    requires (hasRep && hasDef ==> |rep| == |def|) && (!hasRep && !hasDef ==> numItems.Some?)
    ensures fresh(r) && fresh(d) && r != d && num == r.Length && (hasDef ==> num <= d.Length)
    ensures Zip(r[..num], d[..], hasDef) == PageLevels(rep, hasRep, def, hasDef, numItems)
  {
    num := if hasRep then |rep| else if hasDef then |def| else numItems.value;
    r := new nat[num](i requires 0 <= i < num => if hasRep then rep[i] else 0);
    d := new nat[if hasDef then num else 0](i requires 0 <= i < if hasDef then num else 0 => def[i]);
    assert Zip(r[..num], d[..], hasDef) == PageLevels(rep, hasRep, def, hasDef, numItems);
  }

  /** `unravel`: refused exactly when the specification refuses, and otherwise layer for layer the same. */
  method UnravelLevels(rep: seq<nat>, hasRep: bool, def: seq<nat>, hasDef: bool, kinds: seq<Kind>,
                       numItems: Option<nat>)
    returns (out: Option<seq<OutLayer>>)
    ensures out.Some? <==> UnravelOf(rep, hasRep, def, hasDef, kinds, numItems).Some?
    ensures out.Some? ==> ShowsAll(out.value, UnravelOf(rep, hasRep, def, hasDef, kinds, numItems).value)
  {
    hide Accepted, Peel, TableOf, PageLevels, Shows, ShowsAll, DefsBelow, Prepend, Run, MarksFor, ItemBits, Holds;
    var checked := Check(rep, hasRep, def, hasDef, kinds, numItems);
    if checked.None? {
      return None;
    }
    var table := checked.value;
    AcceptedParts(rep, hasRep, def, hasDef, kinds, numItems);
    var num: nat;
    var r, d;
    r, d, num := LoadLevels(rep, hasRep, def, hasDef, numItems);
    var layers: seq<OutLayer> := [];
    ShowsNothing();
    ghost var done: seq<Layer> := [];
    ghost var ls := Zip(r[..num], d[..], hasDef);
    ghost var whole := Peel(kinds, 0, table, ls, 0, 0, 0, numItems);
    PrependNone(whole);
    var li: nat, used: nat, depth: nat, inner: nat := 0, 0, 0, 0;
    while li < |kinds|
      invariant 0 <= li <= |kinds| && num <= r.Length && (hasDef ==> num <= d.Length) && r != d && fresh(r) && fresh(d)
      invariant ls == Zip(r[..num], d[..], hasDef) && DefsBelow(ls, |table|)
      invariant whole == Prepend(done, Peel(kinds, li, table, ls, used, depth, inner, numItems))
      invariant ShowsAll(layers, done)
    {
      if IsItemKind(kinds[li]) {
        var nullable := kinds[li].NullableItem?;
        ghost var valid := ItemBits(table, depth, nullable, used, ls);
        var bits := OneItemLayer(d, num, hasDef, table, depth, nullable, used, ls);
        ItemTurn(whole, done, kinds, li, table, ls, used, depth, inner, numItems, bits.length);
        if (li == 0 && numItems.Some? && bits.length != numItems.value) || (li != 0 && bits.length != inner) {
          return None;
        }
        var layer := OutLayer(kinds[li], bits, []);
        ShowsFlat(layer, valid);
        ShowsPush(layers, done, layer, Flat(valid));
        layers, done := layers + [layer], done + [Flat(valid)];
        used, inner := used + One(nullable), bits.length;
      } else {
        var m := MarksFor(kinds, li, used);
        var offsets, bits, children, write, valid := ListLayer(r, d, num, hasDef, m);
        ghost var after := Zip(r[..write], d[..], hasDef);
        ListTurn(whole, done, kinds, li, table, ls, used, depth, inner, numItems, m,
                 Pass(offsets, children, valid, after));
        if children != inner {
          return None;
        }
        EmptyBelow(|table|);
        RunDefs(START, m, ls, |table|);
        var layer := OutLayer(kinds[li], bits, offsets + [children]);
        ShowsLists(layer, offsets + [children], valid);
        ShowsPush(layers, done, layer, Lists(offsets + [children], valid));
        layers, done := layers + [layer], done + [Lists(offsets + [children], valid)];
        num, ls := write, after;
        used, depth, inner := m.own, depth + 1, bits.length;
      }
      li := li + 1;
    }
    PeelDone(kinds, li, table, ls, used, depth, inner, numItems);
    PrependAll(done);
    out := Some(layers);
  }
}
