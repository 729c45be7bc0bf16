/** `unravel` of src/encoding/repdef.cpp: level streams back to lists and validity, layer by layer from the items
    outward. */
module Unravel {
  import opened Levels

  // ---- a list layer --------------------------------------------------------------------------------

  /** The definition levels that matter to a list layer: its null and empty level (0: none), the highest of its own,
      and the highest of the structs directly around it. */
  datatype Marks = Marks(nullLevel: nat, emptyLevel: nat, own: nat, top: nat)

  /** A pass over the levels: the lists found so far, the children counted, and the levels that stay for the layers
      around. */
  datatype Pass = Pass(offsets: seq<nat>, children: nat, valid: seq<bool>, out: seq<Level>)

  function Step(p: Pass, m: Marks, l: Level): Pass {
    if l.rep == 0 then p.(children := p.children + 1)
    else
      var out := p.out + [Level(l.rep - 1, l.def)];
      if l.def == 0 then Pass(p.offsets + [p.children], p.children + 1, p.valid + [true], out)
      else if l.def > m.top then p.(out := out)
      else if (m.nullLevel != 0 && l.def == m.nullLevel) || l.def > m.own then
        Pass(p.offsets + [p.children], p.children, p.valid + [false], out)
      else if m.emptyLevel != 0 && l.def == m.emptyLevel then
        Pass(p.offsets + [p.children], p.children, p.valid + [true], out)
      else Pass(p.offsets + [p.children], p.children + 1, p.valid + [true], out)
  }

  ghost function Run(p: Pass, m: Marks, ls: seq<Level>): Pass
    decreases |ls|
  {
    if ls == [] then p else Run(Step(p, m, ls[0]), m, ls[1..])
  }

  lemma {:induction false} RunAppend(p: Pass, m: Marks, a: seq<Level>, b: seq<Level>)
    ensures Run(p, m, a + b) == Run(Run(p, m, a), m, b)
    decreases |a|
  {
    hide Step;
    if a == [] {
      assert a + b == b;
    } else {
      assert (a + b)[1..] == a[1..] + b;
      RunAppend(Step(p, m, a[0]), m, a[1..], b);
    }
  }

  // ---- what the pass should find -------------------------------------------------------------------

  ghost function Starts(es: seq<Entry>, from: nat): (s: seq<nat>)
    ensures |s| == |es|
  {
    if es == [] then [] else [from] + Starts(es[1..], from + es[0].count)
  }

  ghost function Total(es: seq<Entry>): nat {
    if es == [] then 0 else es[0].count + Total(es[1..])
  }

  function Valids(es: seq<Entry>): (v: seq<bool>)
    ensures |v| == |es| && forall i :: 0 <= i < |v| ==> v[i] == es[i].valid
  {
    seq(|es|, i requires 0 <= i < |es| => es[i].valid)
  }

  ghost function Extend(p: Pass, es: seq<Entry>, ls: seq<Level>): Pass {
    Pass(p.offsets + Starts(es, p.children), p.children + Total(es), p.valid + Valids(es), p.out + ls)
  }

  lemma {:induction false} StartsPlus(a: seq<Entry>, b: seq<Entry>, from: nat)
    ensures Starts(a + b, from) == Starts(a, from) + Starts(b, from + Total(a))
    decreases |a|
  {
    if a == [] {
      assert a + b == b;
    } else {
      var tail := Starts(b, from + Total(a));
      assert (a + b)[1..] == a[1..] + b && (a + b)[0] == a[0];
      StartsPlus(a[1..], b, from + a[0].count);
      assert [from] + (Starts(a[1..], from + a[0].count) + tail) == [from] + Starts(a[1..], from + a[0].count) + tail;
    }
  }

  lemma {:induction false} TotalPlus(a: seq<Entry>, b: seq<Entry>)
    ensures Total(a + b) == Total(a) + Total(b)
    decreases |a|
  {
    if a == [] {
      assert a + b == b;
    } else {
      assert (a + b)[1..] == a[1..] + b;
      TotalPlus(a[1..], b);
    }
  }

  lemma ExtendTwice(p: Pass, es: seq<Entry>, ls: seq<Level>, es': seq<Entry>, ls': seq<Level>)
    ensures Extend(Extend(p, es, ls), es', ls') == Extend(p, es + es', ls + ls')
  {
    hide Starts, Total;
    StartsPlus(es, es', p.children);
    TotalPlus(es, es');
    assert Valids(es + es') == Valids(es) + Valids(es');
  }

  lemma ExtendNone(p: Pass)
    ensures Extend(p, [], []) == p
  {
  }

  // ---- the levels a list layer sees ----------------------------------------------------------------

  /** The outermost of the structs directly around layer t; t itself when there is none. */
  function Wrap(sh: Shape, t: nat): (j: nat)
    requires t <= Items(sh)
    ensures j <= t && (forall i :: j <= i < t ==> !sh.lists[i]) && (j > 0 ==> sh.lists[j - 1])
  {
    if t == 0 || sh.lists[t - 1] then t else Wrap(sh, t - 1)
  }

  ghost function MarksOf(sh: Shape, t: nat): Marks
    requires ShapeOk(sh) && t < Items(sh)
  {
    Marks(if sh.nulls[t] then NullLevel(sh, t) else 0, if sh.empties[t] then EmptyLevel(sh, t) else 0,
          Used(sh, t), Used(sh, Wrap(sh, t)))
  }

  lemma {:induction false} NoListBetween(sh: Shape, k: nat, t: nat)
    requires k <= t <= Items(sh)
    ensures Between(sh, k, t) == 0 <==> forall i :: k <= i < t ==> !sh.lists[i]
    decreases t - k
  {
    if k < t {
      NoListBetween(sh, k + 1, t);
    }
  }

  /** A level of a layer k around t: of a null struct directly around, or out of sight. */
  lemma OuterLevel(sh: Shape, k: nat, t: nat, d: nat)
    requires ShapeOk(sh) && k < t <= Items(sh) && Used(sh, k + 1) < d <= Used(sh, k)
    ensures Used(sh, t) < d
    ensures !sh.lists[k] && Between(sh, k + 1, t) == 0 ==> d <= Used(sh, Wrap(sh, t))
    ensures sh.lists[k] || Between(sh, k + 1, t) != 0 ==> Used(sh, Wrap(sh, t)) < d
  {
    hide Used, Between;
    UsedMonotone(sh, k + 1, t);
    NoListBetween(sh, k + 1, t);
    if !sh.lists[k] && Between(sh, k + 1, t) == 0 {
      assert Wrap(sh, t) <= k;
      UsedMonotone(sh, Wrap(sh, t), k);
    } else {
      assert Wrap(sh, t) > k;
      UsedMonotone(sh, k + 1, Wrap(sh, t));
    }
  }

  lemma WrapUses(sh: Shape, t: nat)
    requires ShapeOk(sh) && t <= Items(sh)
    ensures Used(sh, t) <= Used(sh, Wrap(sh, t))
  {
    UsedMonotone(sh, Wrap(sh, t), t);
  }

  // ---- the pass over a forest ----------------------------------------------------------------------

  /** One level that starts something at or around layer t. */
  lemma OneLevel(sh: Shape, node: Node, k: nat, t: nat, rep: nat, p: Pass)
    requires ShapeOk(sh) && k < t < Items(sh) && sh.lists[t] && Ok(sh, node, k) && rep >= 1
    requires !node.Struct? && !node.List?
    ensures Step(p, MarksOf(sh, t), Level(rep, First(sh, node, k)))
         == Extend(p, EntriesAt(sh, node, k, t), [Level(rep - 1, First(sh, node, k))])
  {
    hide Used, Between, Wrap;
    var d := First(sh, node, k);
    UsedStep(sh, k);
    OuterLevel(sh, k, t, d);
    ExtendOne(p, false, 0, Level(rep - 1, d));
    ExtendLevel(p, Level(rep - 1, d));
    if node.NullStruct? && Between(sh, k + 1, t) == 0 {
      assert EntriesAt(sh, node, k, t) == [Entry(false, 0)];
    } else {
      assert EntriesAt(sh, node, k, t) == [];
    }
  }

  lemma UsedStep(sh: Shape, k: nat)
    requires ShapeOk(sh) && k <= Items(sh)
    ensures Used(sh, k) == Used(sh, k + 1) + One(sh.nulls[k]) + One(sh.empties[k])
  {
  }

  lemma ExtendOne(p: Pass, valid: bool, count: nat, l: Level)
    ensures Extend(p, [Entry(valid, count)], [l])
         == Pass(p.offsets + [p.children], p.children + count, p.valid + [valid], p.out + [l])
  {
    assert [Entry(valid, count)][1..] == [];
    assert Starts([Entry(valid, count)], p.children) == [p.children] && Total([Entry(valid, count)]) == count;
    assert Valids([Entry(valid, count)]) == [valid];
  }

  lemma ExtendLevel(p: Pass, l: Level)
    ensures Extend(p, [], [l]) == p.(out := p.out + [l])
  {
  }

  /** A list of layer t itself: its first child starts it, the others continue it. */
  lemma OneList(sh: Shape, node: Node, t: nat, rep: nat, p: Pass)
    requires ShapeOk(sh) && t < Items(sh) && sh.lists[t] && Ok(sh, node, t) && rep >= 1
    ensures Run(p, MarksOf(sh, t), Cut(sh, node, t, t + 1, rep))
         == Extend(p, [Summary(node)], [Level(rep - 1, First(sh, node, t))])
  {
    hide Used, Wrap, Extend;
    UsedStep(sh, t);
    WrapUses(sh, t);
    var m, d := MarksOf(sh, t), First(sh, node, t);
    ExtendOne(p, Summary(node).valid, Summary(node).count, Level(rep - 1, d));
    if node.List? {
      var cs := node.children;
      FirstBound(sh, cs[0], t + 1);
      assert Between(sh, t + 1, t + 1) == 0 && Between(sh, t, t + 1) == 1;
      assert CutOf(sh, cs, t + 1, t + 1, rep, 0)
          == Cut(sh, cs[0], t + 1, t + 1, rep) + CutOf(sh, cs[1..], t + 1, t + 1, 0, 0);
      var rest := CutOf(sh, cs[1..], t + 1, t + 1, 0, 0);
      assert Cut(sh, node, t, t + 1, rep) == [Level(rep, d)] + rest;
      RunAppend(p, m, [Level(rep, d)], rest);
      RunOne(p, m, Level(rep, d));
      Continue(sh, cs[1..], t + 1, Step(p, m, Level(rep, d)), m);
    } else {
      assert Cut(sh, node, t, t + 1, rep) == [Level(rep, d)];
      RunOne(p, m, Level(rep, d));
    }
  }

  lemma RunOne(p: Pass, m: Marks, l: Level)
    ensures Run(p, m, [l]) == Step(p, m, l)
  {
    hide Step;
    assert [l][1..] == [];
  }

  lemma {:induction false} Continue(sh: Shape, nodes: seq<Node>, t: nat, p: Pass, m: Marks)
    requires ShapeOk(sh) && t <= Items(sh)
    ensures Run(p, m, CutOf(sh, nodes, t, t, 0, 0)) == p.(children := p.children + |nodes|)
    decreases |nodes|
  {
    if nodes != [] {
      var l, rest := Level(0, First(sh, nodes[0], t)), CutOf(sh, nodes[1..], t, t, 0, 0);
      assert CutOf(sh, nodes, t, t, 0, 0) == [l] + rest;
      RunAppend(p, m, [l], rest);
      RunOne(p, m, l);
      Continue(sh, nodes[1..], t, Step(p, m, l), m);
    }
  }

  /** The pass over the levels cut inside list layer t finds the lists of layer t, and leaves the levels cut there. */
  lemma {:induction false} ListPass(sh: Shape, node: Node, k: nat, t: nat, rep: nat, p: Pass)
    requires ShapeOk(sh) && k <= t < Items(sh) && sh.lists[t] && Ok(sh, node, k) && rep >= 1
    ensures Run(p, MarksOf(sh, t), Cut(sh, node, k, t + 1, rep))
         == Extend(p, EntriesAt(sh, node, k, t), Cut(sh, node, k, t, rep - 1))
    decreases t - k, 0
  {
    hide Used, Wrap, Extend, Run, Step, MarksOf;
    if k == t {
      OneList(sh, node, t, rep, p);
    } else if node.Struct? {
      ListPass(sh, node.child, k + 1, t, rep, p);
    } else if node.List? {
      BetweenOne(sh, k, t);
      ListsPass(sh, node.children, k + 1, t, rep, Between(sh, k, t + 1) - 1, p);
    } else {
      OneLevel(sh, node, k, t, rep, p);
      RunOne(p, MarksOf(sh, t), Level(rep, First(sh, node, k)));
    }
  }

  lemma BetweenOne(sh: Shape, k: nat, t: nat)
    requires k < t < Items(sh) && sh.lists[k] && sh.lists[t]
    ensures Between(sh, k, t + 1) == Between(sh, k, t) + 1 && Between(sh, k, t) >= 1
  {
    BetweenSplit(sh, k, t, t + 1);
  }

  lemma {:induction false} ListsPass(sh: Shape, nodes: seq<Node>, k: nat, t: nat, first: nat, rest: nat, p: Pass)
    requires ShapeOk(sh) && k <= t < Items(sh) && sh.lists[t] && AllOk(sh, nodes, k) && first >= 1 && rest >= 1
    ensures Run(p, MarksOf(sh, t), CutOf(sh, nodes, k, t + 1, first, rest))
         == Extend(p, EntriesOf(sh, nodes, k, t), CutOf(sh, nodes, k, t, first - 1, rest - 1))
    decreases t - k, |nodes| + 1
  {
    hide Used, Wrap, Extend, Run, Step, MarksOf;
    if nodes == [] {
      RunNone(p, MarksOf(sh, t));
      ExtendNone(p);
    } else {
      var a, b := Cut(sh, nodes[0], k, t + 1, first), CutOf(sh, nodes[1..], k, t + 1, rest, rest);
      RunAppend(p, MarksOf(sh, t), a, b);
      ListPass(sh, nodes[0], k, t, first, p);
      var q := Run(p, MarksOf(sh, t), a);
      ListsPass(sh, nodes[1..], k, t, rest, rest, q);
      ExtendTwice(p, EntriesAt(sh, nodes[0], k, t), Cut(sh, nodes[0], k, t, first - 1),
                  EntriesOf(sh, nodes[1..], k, t), CutOf(sh, nodes[1..], k, t, rest - 1, rest - 1));
    }
  }

  lemma RunNone(p: Pass, m: Marks)
    ensures Run(p, m, []) == p
  {
  }

  // ---- an item or struct layer ---------------------------------------------------------------------

  function OneIf(n: nat, c: bool): seq<nat> {
    if c then [n] else []
  }

  /** For every definition level of the layers from k inward, at how many lists' depth it can be seen. */
  function DepthTable(sh: Shape, k: nat): (t: seq<nat>)
    requires ShapeOk(sh)
    ensures |t| == Used(sh, k) + 1
    decreases Items(sh) + 1 - k
  {
    if k > Items(sh) then [0]
    else
      var depth := Between(sh, k, Items(sh));
      DepthTable(sh, k + 1) + OneIf(depth, sh.nulls[k]) + OneIf(depth, sh.empties[k])
  }

  /** The validity of the entries in sight. */
  function ItemBits(table: seq<nat>, depth: nat, nullable: bool, own: nat, ls: seq<Level>): seq<bool> {
    if ls == [] then []
    else
      (if ls[0].def < |table| && table[ls[0].def] <= depth then [!nullable || ls[0].def <= own] else [])
      + ItemBits(table, depth, nullable, own, ls[1..])
  }

  /** A layer that holds no null is taken as valid throughout, even under a null struct. */
  function Shown(es: seq<Entry>, nullable: bool): (v: seq<bool>)
    ensures |v| == |es| && forall i :: 0 <= i < |v| ==> v[i] == (!nullable || es[i].valid)
  {
    seq(|es|, i requires 0 <= i < |es| => !nullable || es[i].valid)
  }

  lemma {:induction false} TableBound(sh: Shape, k: nat, d: nat)
    requires ShapeOk(sh) && d <= Used(sh, k)
    ensures DepthTable(sh, k)[d] <= Between(sh, k, Items(sh))
    decreases Items(sh) + 1 - k
  {
    if k <= Items(sh) && d <= Used(sh, k + 1) {
      TableBound(sh, k + 1, d);
    }
  }

  lemma {:induction false} TablePrefix(sh: Shape, j: nat, k: nat, d: nat)
    requires ShapeOk(sh) && j <= k && d <= Used(sh, k)
    ensures d <= Used(sh, j) && DepthTable(sh, j)[d] == DepthTable(sh, k)[d]
    decreases k - j
  {
    if j < k {
      TablePrefix(sh, j + 1, k, d);
    }
  }

  /** A level of layer k is seen from that layer's depth on. */
  lemma TableAt(sh: Shape, k: nat, d: nat)
    requires ShapeOk(sh) && k <= Items(sh) && Used(sh, k + 1) < d <= Used(sh, k)
    ensures d <= Used(sh, 0) && DepthTable(sh, 0)[d] == Between(sh, k, Items(sh))
  {
    TablePrefix(sh, 0, k, d);
  }

  lemma {:induction false} BitsAppend(table: seq<nat>, depth: nat, nullable: bool, own: nat, a: seq<Level>,
                                      b: seq<Level>)
    ensures ItemBits(table, depth, nullable, own, a + b)
         == ItemBits(table, depth, nullable, own, a) + ItemBits(table, depth, nullable, own, b)
    decreases |a|
  {
    if a == [] {
      assert a + b == b;
    } else {
      assert (a + b)[1..] == a[1..] + b;
      BitsAppend(table, depth, nullable, own, a[1..], b);
    }
  }

  lemma BitsOne(table: seq<nat>, depth: nat, nullable: bool, own: nat, l: Level)
    requires l.def < |table|
    ensures ItemBits(table, depth, nullable, own, [l])
         == if table[l.def] <= depth then [!nullable || l.def <= own] else []
  {
    assert [l][1..] == [];
  }

  ghost function SeenAt(sh: Shape, t: nat, ls: seq<Level>): seq<bool>
    requires ShapeOk(sh) && t <= Items(sh)
  {
    ItemBits(DepthTable(sh, 0), Between(sh, t, Items(sh)), sh.nulls[t], Used(sh, t + 1), ls)
  }

  ghost predicate IsFlat(sh: Shape, t: nat) {
    t == Items(sh) || (t < Items(sh) && !sh.lists[t])
  }

  /** An entry of the layer itself is in sight, and valid as it is. */
  lemma OwnEntry(sh: Shape, node: Node, t: nat, rep: nat)
    requires ShapeOk(sh) && IsFlat(sh, t) && Ok(sh, node, t)
    ensures SeenAt(sh, t, [Level(rep, First(sh, node, t))]) == Shown([Summary(node)], sh.nulls[t])
  {
    hide ItemBits, DepthTable, Between;
    var d := First(sh, node, t);
    FirstBound(sh, node, t);
    TablePrefix(sh, 0, t, d);
    TableBound(sh, t, d);
    BitsOne(DepthTable(sh, 0), Between(sh, t, Items(sh)), sh.nulls[t], Used(sh, t + 1), Level(rep, d));
    if node.Struct? { FirstBound(sh, node.child, t + 1); }
  }

  /** A level of a layer around: a null struct directly around is in sight as a null, everything else is not. */
  lemma OuterEntry(sh: Shape, node: Node, k: nat, t: nat, rep: nat)
    requires ShapeOk(sh) && IsFlat(sh, t) && k < t && Ok(sh, node, k) && !node.Struct? && !node.List?
    ensures SeenAt(sh, t, [Level(rep, First(sh, node, k))]) == Shown(EntriesAt(sh, node, k, t), sh.nulls[t])
  {
    hide ItemBits, DepthTable, Used, Between;
    var d, n := First(sh, node, k), Items(sh);
    UsedStep(sh, k);
    TableAt(sh, k, d);
    UsedMonotone(sh, k + 1, t);
    UsedMonotone(sh, t, t + 1);
    BitsOne(DepthTable(sh, 0), Between(sh, t, n), sh.nulls[t], Used(sh, t + 1), Level(rep, d));
    BetweenSplit(sh, k, t, n);
    BetweenFirst(sh, k, t);
    if node.NullStruct? && Between(sh, k + 1, t) == 0 {
      assert EntriesAt(sh, node, k, t) == [Entry(false, 0)];
    } else {
      assert EntriesAt(sh, node, k, t) == [];
    }
  }

  lemma BetweenFirst(sh: Shape, k: nat, t: nat)
    requires k < t <= Items(sh)
    ensures Between(sh, k, t) == One(sh.lists[k]) + Between(sh, k + 1, t)
  {
  }

  lemma {:induction false} ItemPass(sh: Shape, node: Node, k: nat, t: nat, rep: nat)
    requires ShapeOk(sh) && IsFlat(sh, t) && k <= t && Ok(sh, node, k)
    ensures SeenAt(sh, t, Cut(sh, node, k, t, rep)) == Shown(EntriesAt(sh, node, k, t), sh.nulls[t])
    decreases t - k, 0
  {
    hide SeenAt, Shown;
    if k == t {
      OwnEntry(sh, node, t, rep);
    } else if node.Struct? {
      ItemPass(sh, node.child, k + 1, t, rep);
    } else if node.List? {
      ItemsPass(sh, node.children, k + 1, t, rep, Between(sh, k, t) - 1);
    } else {
      OuterEntry(sh, node, k, t, rep);
    }
  }

  lemma {:induction false} ItemsPass(sh: Shape, nodes: seq<Node>, k: nat, t: nat, first: nat, rest: int)
    requires ShapeOk(sh) && IsFlat(sh, t) && k <= t && AllOk(sh, nodes, k)
    ensures SeenAt(sh, t, CutOf(sh, nodes, k, t, first, rest)) == Shown(EntriesOf(sh, nodes, k, t), sh.nulls[t])
    decreases t - k, |nodes| + 1
  {
    if nodes != [] {
      var next: nat := if rest >= 0 then rest else 0;
      var a, b := Cut(sh, nodes[0], k, t, first), CutOf(sh, nodes[1..], k, t, next, rest);
      BitsAppend(DepthTable(sh, 0), Between(sh, t, Items(sh)), sh.nulls[t], Used(sh, t + 1), a, b);
      hide SeenAt, ItemBits;
      ItemPass(sh, nodes[0], k, t, first);
      ItemsPass(sh, nodes[1..], k, t, next, rest);
      ShownPlus(EntriesAt(sh, nodes[0], k, t), EntriesOf(sh, nodes[1..], k, t), sh.nulls[t]);
    }
  }

  lemma ShownPlus(a: seq<Entry>, b: seq<Entry>, nullable: bool)
    ensures Shown(a + b, nullable) == Shown(a, nullable) + Shown(b, nullable)
  {
  }
}
