/** Repetition and definition levels of nested columns as src/encoding/repdef.cpp writes them: the numbering of the
    levels, the stream a forest of nested values gives, and what each layer of the forest holds. */
module Levels {

  /** Layers outermost first, the items last (layer n): which are lists, and which kinds of entry occur. */
  datatype Shape = Shape(lists: seq<bool>, nulls: seq<bool>, empties: seq<bool>)

  /** A value at some layer. A null or empty list has no children, whatever its column holds below it. */
  datatype Node =
    | Item(valid: bool)
    | Struct(child: Node)
    | NullStruct
    | NullList
    | EmptyList
    | List(children: seq<Node>)

  datatype Level = Level(rep: nat, def: nat)

  /** An entry of a layer: whether it is valid, and for a list how many children it has. */
  datatype Entry = Entry(valid: bool, count: nat)

  function Items(sh: Shape): nat {
    |sh.lists|
  }

  ghost predicate ShapeOk(sh: Shape) {
    && |sh.nulls| == |sh.empties| == Items(sh) + 1
    && forall k :: 0 <= k <= Items(sh) ==> (sh.empties[k] ==> k < Items(sh) && sh.lists[k])
  }

  function One(c: bool): nat {
    if c then 1 else 0
  }

  // ---- the numbering -------------------------------------------------------------------------------

  /** How many definition levels the layers from k inward use; those of layer k come last. */
  function Used(sh: Shape, k: nat): nat
    requires ShapeOk(sh)
    decreases Items(sh) + 1 - k
  {
    if k > Items(sh) then 0 else Used(sh, k + 1) + One(sh.nulls[k]) + One(sh.empties[k])
  }

  function NullLevel(sh: Shape, k: nat): nat
    requires ShapeOk(sh)
  {
    Used(sh, k + 1) + 1
  }

  function EmptyLevel(sh: Shape, k: nat): nat
    requires ShapeOk(sh) && k <= Items(sh)
  {
    Used(sh, k + 1) + One(sh.nulls[k]) + 1
  }

  /** How many of the layers k to t - 1 are lists. */
  function Between(sh: Shape, k: nat, t: nat): nat
    decreases t - k
  {
    if k >= t || k >= Items(sh) then 0 else One(sh.lists[k]) + Between(sh, k + 1, t)
  }

  lemma {:induction false} UsedMonotone(sh: Shape, j: nat, k: nat)
    requires ShapeOk(sh) && j <= k
    ensures Used(sh, k) <= Used(sh, j)
    decreases k - j
  {
    if j < k {
      UsedMonotone(sh, j + 1, k);
    }
  }

  lemma {:induction false} BetweenSplit(sh: Shape, k: nat, m: nat, t: nat)
    requires k <= m <= t <= Items(sh)
    ensures Between(sh, k, t) == Between(sh, k, m) + Between(sh, m, t)
    decreases m - k
  {
    if k < m {
      BetweenSplit(sh, k + 1, m, t);
    }
  }

  // ---- forests -------------------------------------------------------------------------------------

  /** The node is a value of layer k, and what occurs in it is in the shape. */
  ghost predicate Ok(sh: Shape, node: Node, k: nat)
    requires ShapeOk(sh)
    decreases Items(sh) - k
  {
    if k >= Items(sh) then k == Items(sh) && node.Item? && (node.valid || sh.nulls[k])
    else if sh.lists[k] then
      || (node.NullList? && sh.nulls[k])
      || (node.EmptyList? && sh.empties[k])
      || (node.List? && node.children != [] && forall i :: 0 <= i < |node.children| ==> Ok(sh, node.children[i], k + 1))
    else (node.NullStruct? && sh.nulls[k]) || (node.Struct? && Ok(sh, node.child, k + 1))
  }

  ghost predicate AllOk(sh: Shape, nodes: seq<Node>, k: nat)
    requires ShapeOk(sh)
  {
    forall i :: 0 <= i < |nodes| ==> Ok(sh, nodes[i], k)
  }

  // ---- what a layer holds --------------------------------------------------------------------------

  function Summary(node: Node): Entry {
    match node
    case Item(valid) => Entry(valid, 0)
    case Struct(_) => Entry(true, 0)
    case NullStruct => Entry(false, 0)
    case NullList => Entry(false, 0)
    case EmptyList => Entry(true, 0)
    case List(children) => Entry(true, |children|)
  }

  /** The entries of layer t under a node of layer k. A null struct masks what it holds: one null entry in every
      layer down to the first list or the items. */
  ghost function EntriesAt(sh: Shape, node: Node, k: nat, t: nat): seq<Entry>
    decreases t - k, 0
  {
    if k >= t then [Summary(node)]
    else
      match node
      case Struct(c) => EntriesAt(sh, c, k + 1, t)
      case NullStruct => if Between(sh, k + 1, t) == 0 then [Entry(false, 0)] else []
      case List(cs) => EntriesOf(sh, cs, k + 1, t)
      case _ => []
  }

  ghost function EntriesOf(sh: Shape, nodes: seq<Node>, k: nat, t: nat): seq<Entry>
    decreases t - k, |nodes| + 1
  {
    if nodes == [] then [] else EntriesAt(sh, nodes[0], k, t) + EntriesOf(sh, nodes[1..], k, t)
  }

  // ---- the stream ----------------------------------------------------------------------------------

  /** The definition level of the first level a node writes. */
  ghost function First(sh: Shape, node: Node, k: nat): nat
    requires ShapeOk(sh) && k <= Items(sh)
    decreases Items(sh) - k
  {
    match node
    case Item(valid) => if valid then 0 else NullLevel(sh, Items(sh))
    case NullStruct => NullLevel(sh, k)
    case NullList => NullLevel(sh, k)
    case EmptyList => EmptyLevel(sh, k)
    case Struct(c) => if k < Items(sh) then First(sh, c, k + 1) else 0
    case List(cs) => if k < Items(sh) && cs != [] then First(sh, cs[0], k + 1) else 0
  }

  /** The levels of a node, cut at layer t: a node of layer t is one level, as if nothing were inside it. Cut at the
      items it is the whole stream. The first child of a list inherits the level that starts the list. */
  ghost function Cut(sh: Shape, node: Node, k: nat, t: nat, rep: nat): seq<Level>
    requires ShapeOk(sh) && k <= t <= Items(sh)
    decreases t - k, 0
  {
    if k == t then [Level(rep, First(sh, node, k))]
    else
      match node
      case Struct(c) => Cut(sh, c, k + 1, t, rep)
      case List(cs) => CutOf(sh, cs, k + 1, t, rep, Between(sh, k, t) - 1)
      case _ => [Level(rep, First(sh, node, k))]
  }

  /** Children: the first starts at one level, the others at another. */
  ghost function CutOf(sh: Shape, nodes: seq<Node>, k: nat, t: nat, first: nat, rest: int): seq<Level>
    requires ShapeOk(sh) && k <= t <= Items(sh)
    decreases t - k, |nodes| + 1
  {
    if nodes == [] then []
    else Cut(sh, nodes[0], k, t, first) + CutOf(sh, nodes[1..], k, t, if rest >= 0 then rest else 0, rest)
  }

  lemma {:induction false} FirstBound(sh: Shape, node: Node, k: nat)
    requires ShapeOk(sh) && k <= Items(sh) && Ok(sh, node, k)
    ensures First(sh, node, k) <= Used(sh, k)
    decreases Items(sh) - k
  {
    match node
    case Struct(c) =>
      FirstBound(sh, c, k + 1);
      UsedMonotone(sh, k, k + 1);
    case List(cs) =>
      FirstBound(sh, cs[0], k + 1);
      UsedMonotone(sh, k, k + 1);
    case _ =>
  }
}
