/** The edges and ranks of tools/check_layers.py (`run`) and tools/gen_layer_docs.py (`build`): what a tree
    without violations says about include cycles and about the layer diagram. A layer is its rank, its
    position in LAYERS. */
module Layers {
  import opened Graph
  import opened Order
  import Tarjan
  import Reduction

  /** One #include between known modules. */
  datatype Include = Include(includer: Node, included: Node)

  type Layering = map<Node, nat>

  /** `collect` keeps an include only when both its modules have a layer. */
  ghost predicate Known(edges: seq<Include>, layerOf: Layering) {
    forall e :: e in edges ==> e.includer in layerOf && e.included in layerOf
  }

  ghost predicate HasEdge(edges: seq<Include>, a: Node, b: Node) {
    Include(a, b) in edges
  }

  /** An include of a module of a higher layer. */
  predicate Violates(layerOf: Layering, a: Node, b: Node)
    requires a in layerOf && b in layerOf
  {
    layerOf[b] > layerOf[a]
  }

  ghost predicate NoViolation(edges: seq<Include>, layerOf: Layering)
    requires Known(edges, layerOf)
  {
    forall e :: e in edges ==> !Violates(layerOf, e.includer, e.included)
  }

  /** adj is the include graph of `edges`. */
  ghost predicate AdjacencyOf(edges: seq<Include>, adj: Edges) {
    forall a, b :: b in Succ(adj, a) <==> HasEdge(edges, a, b)
  }

  /** One edge put into a dictionary of sets. */
  function AddEdge(g: Edges, a: Node, b: Node): Edges {
    g[a := Succ(g, a) + {b}]
  }

  lemma AddEdgeSucc(g: Edges, a: Node, b: Node)
    ensures forall x, y :: y in Succ(AddEdge(g, a, b), x) <==> y in Succ(g, x) || (x == a && y == b)
  {
  }

  /** `adj[a].add(b)` for every include. */
  method BuildAdjacency(edges: seq<Include>) returns (adj: Edges)
    ensures AdjacencyOf(edges, adj)
  {
    adj := map[];
    for i := 0 to |edges|
      invariant forall a, b :: b in Succ(adj, a) <==> HasEdge(edges[..i], a, b)
    {
      hide AddEdge, Succ;
      var e := edges[i];
      assert edges[..i + 1] == edges[..i] + [e];
      AddEdgeSucc(adj, e.includer, e.included);
      assert forall a, b :: HasEdge(edges[..i + 1], a, b) <==> HasEdge(edges[..i], a, b) || Include(a, b) == e;
      adj := AddEdge(adj, e.includer, e.included);
    }
    assert edges[..|edges|] == edges;
  }

  /** An include from a module of layer a to a module of layer b. */
  ghost predicate LayerUses(edges: seq<Include>, layerOf: Layering, a: nat, b: nat)
    requires Known(edges, layerOf)
  {
    exists e :: e in edges && layerOf[e.includer] == a && layerOf[e.included] == b
  }

  /** The layer graph of some includes: a layer uses another when a module of it includes one of the other. */
  ghost predicate UsesOf(edges: seq<Include>, layerOf: Layering, uses: Edges)
    requires Known(edges, layerOf)
  {
    forall a, b :: b in Succ(uses, a) <==> a != b && LayerUses(edges, layerOf, a, b)
  }

  ghost predicate Converse(uses: Edges, usedBy: Edges) {
    forall a, b :: a in Succ(usedBy, b) <==> b in Succ(uses, a)
  }

  lemma UsesStep(edges: seq<Include>, layerOf: Layering, uses: Edges, e: Include)
    requires Known(edges + [e], layerOf) && Known(edges, layerOf) && UsesOf(edges, layerOf, uses)
    ensures var a, b := (assert e in edges + [e]; layerOf[e.includer]), layerOf[e.included];
            UsesOf(edges + [e], layerOf, if a != b then AddEdge(uses, a, b) else uses)
  {
    assert e in edges + [e];
    var a, b := layerOf[e.includer], layerOf[e.included];
    var uses' := if a != b then AddEdge(uses, a, b) else uses;
    AddEdgeSucc(uses, a, b);
    forall x, y ensures y in Succ(uses', x) <==> x != y && LayerUses(edges + [e], layerOf, x, y) {
      assert LayerUses(edges + [e], layerOf, x, y) <==> LayerUses(edges, layerOf, x, y) || (x == a && y == b);
    }
  }

  /** `build`: which layer uses which, directly, and the converse; every layer has an entry. */
  method BuildUses(edges: seq<Include>, layerOf: Layering, names: set<nat>) returns (uses: Edges, usedBy: Edges)
    requires Known(edges, layerOf) && forall m :: m in layerOf ==> layerOf[m] in names
    ensures uses.Keys == usedBy.Keys == names && Reduction.Closed(uses)
    ensures UsesOf(edges, layerOf, uses) && Converse(uses, usedBy)
  {
    uses := map n | n in names :: {};
    usedBy := map n | n in names :: {};
    for i := 0 to |edges|
      invariant uses.Keys == usedBy.Keys == names
      invariant UsesOf(edges[..i], layerOf, uses) && Converse(uses, usedBy)
    {
      hide UsesOf;
      assert edges[..i + 1] == edges[..i] + [edges[i]];
      UsesStep(edges[..i], layerOf, uses, edges[i]);
      var a, b := layerOf[edges[i].includer], layerOf[edges[i].included];
      if a != b {
        AddEdgeSucc(uses, a, b);
        AddEdgeSucc(usedBy, b, a);
        uses := AddEdge(uses, a, b);
        usedBy := AddEdge(usedBy, b, a);
      }
    }
    assert edges[..|edges|] == edges;
    forall a, b | a in uses && b in uses[a] ensures b in uses { assert b in Succ(uses, a); }
  }

  /** Without a violation no chain of includes leads upward. */
  lemma {:induction false} ChainDescends(edges: seq<Include>, layerOf: Layering, adj: Edges, p: seq<Node>, n: nat)
    requires Known(edges, layerOf) && NoViolation(edges, layerOf) && AdjacencyOf(edges, adj)
    requires IsPath(adj, p) && 0 < n <= |p| && p[0] in layerOf
    ensures p[n - 1] in layerOf && layerOf[p[n - 1]] <= layerOf[p[0]]
    decreases n
  {
    if n > 1 {
      ChainDescends(edges, layerOf, adj, p, n - 1);
      assert p[n - 2 + 1] in Succ(adj, p[n - 2]);
      assert Include(p[n - 2], p[n - 1]) in edges;
    }
  }

  lemma ReachDescends(edges: seq<Include>, layerOf: Layering, adj: Edges, u: Node, v: Node)
    requires Known(edges, layerOf) && NoViolation(edges, layerOf) && AdjacencyOf(edges, adj)
    requires u in layerOf && Reach(adj, u, v)
    ensures v in layerOf && layerOf[v] <= layerOf[u]
  {
    var p :| IsPath(adj, p) && p[0] == u && p[|p| - 1] == v;
    ChainDescends(edges, layerOf, adj, p, |p|);
  }

  /** A module on an include cycle has a layer. */
  lemma CycleHasLayer(edges: seq<Include>, layerOf: Layering, adj: Edges, c: set<Node>, x: Node, y: Node)
    requires Known(edges, layerOf) && AdjacencyOf(edges, adj)
    requires IsComponent(adj, c) && x in c && y in c && x != y
    ensures x in layerOf
  {
    hide Reach;
    var w := ReachFirstEdge(adj, x, y);
    assert Include(x, w) in edges;
  }

  /** Every include cycle of a tree without violations lies inside one layer. */
  lemma CycleInOneLayer(edges: seq<Include>, layerOf: Layering, adj: Edges, c: set<Node>, x: Node, y: Node)
    requires Known(edges, layerOf) && NoViolation(edges, layerOf) && AdjacencyOf(edges, adj)
    requires IsComponent(adj, c) && x in c && y in c && x != y
    ensures x in layerOf && y in layerOf && layerOf[x] == layerOf[y]
  {
    hide Reach, AdjacencyOf, NoViolation;
    CycleHasLayer(edges, layerOf, adj, c, x, y);
    CycleHasLayer(edges, layerOf, adj, c, y, x);
    ReachDescends(edges, layerOf, adj, x, y);
    ReachDescends(edges, layerOf, adj, y, x);
  }

  /** Edges that strictly lower a number make no cycle. */
  lemma {:induction false} DescentOnPath(uses: Edges, p: seq<Node>, n: nat)
    requires (forall a: Node, b: Node :: b in Succ(uses, a) ==> b < a) && IsPath(uses, p) && 0 < n <= |p|
    ensures p[n - 1] <= p[0]
    decreases n
  {
    if n > 1 {
      DescentOnPath(uses, p, n - 1);
      assert p[n - 2 + 1] in Succ(uses, p[n - 2]);
    }
  }

  lemma UsesAcyclic(edges: seq<Include>, layerOf: Layering, uses: Edges)
    requires Known(edges, layerOf) && NoViolation(edges, layerOf) && UsesOf(edges, layerOf, uses)
    ensures Acyclic(uses)
  {
    forall a: Node, b: Node | b in Succ(uses, a) ensures b < a {
      var e :| e in edges && layerOf[e.includer] == a && layerOf[e.included] == b;
    }
    forall v ensures !ReachPlus(uses, v, v) {
      if ReachPlus(uses, v, v) {
        var w :| w in Succ(uses, v) && Reach(uses, w, v);
        var p :| IsPath(uses, p) && p[0] == w && p[|p| - 1] == v;
        DescentOnPath(uses, p, |p|);
        assert false;
      }
    }
  }

  /** The drawn diagram of a tree without violations says exactly what its table of uses says. */
  lemma DiagramFaithful(edges: seq<Include>, layerOf: Layering, uses: Edges)
    requires Known(edges, layerOf) && NoViolation(edges, layerOf) && UsesOf(edges, layerOf, uses)
    ensures Reduction.SameReachability(uses, Reduction.ReducedOf(uses))
  {
    hide ReachPlus;
    UsesAcyclic(edges, layerOf, uses);
    Reduction.AcyclicIsReducible(uses);
    Reduction.ReducibleSuffices(uses);
  }

  /** The pairs of modules that violate the layering. */
  function ViolatingPairs(edges: seq<Include>, layerOf: Layering): set<(Node, Node)>
    requires Known(edges, layerOf)
  {
    set e | e in edges && Violates(layerOf, e.includer, e.included) :: (e.includer, e.included)
  }

  /** Whether all modules of a reported cycle are in one layer. */
  ghost predicate InOneLayer(layerOf: Layering, c: seq<Node>) {
    forall x, y :: x in c && y in c ==> x in layerOf && y in layerOf && layerOf[x] == layerOf[y]
  }

  /** Every component with two modules is met: each of its modules is included by another. */
  lemma CyclesMet(edges: seq<Include>, adj: Edges, nodes: set<Node>, c: seq<Node>)
    requires AdjacencyOf(edges, adj) && forall e :: e in edges ==> e.included in nodes
    ensures Tarjan.IsCycle(adj, nodes, c) <==> Ascending(c) && |c| > 1 && IsComponent(adj, Members(c))
  {
    hide Reach;
    if Ascending(c) && |c| > 1 && IsComponent(adj, Members(c)) {
      assert c[0] in Members(c) && c[1] in Members(c);
      var x := IncludedBy(adj, c[1], c[0]);
      assert Include(x, c[0]) in edges;
      ReachSelf(adj, c[0]);
    }
  }

  /** The last edge of a chain. */
  lemma IncludedBy(adj: Edges, u: Node, v: Node) returns (x: Node)
    requires Reach(adj, u, v) && u != v
    ensures v in Succ(adj, x)
  {
    var p :| IsPath(adj, p) && p[0] == u && p[|p| - 1] == v;
    x := p[|p| - 2];
    assert p[|p| - 2 + 1] in Succ(adj, x);
  }

  lemma PairListed(edges: seq<Include>, layerOf: Layering, e: Include)
    requires Known(edges, layerOf) && e in edges
    ensures Violates(layerOf, e.includer, e.included) ==> (e.includer, e.included) in ViolatingPairs(edges, layerOf)
  {
  }

  lemma CleanCycles(edges: seq<Include>, layerOf: Layering, adj: Edges, c: seq<Node>)
    requires Known(edges, layerOf) && AdjacencyOf(edges, adj) && ViolatingPairs(edges, layerOf) == {}
    requires Ascending(c) && |c| > 1 && IsComponent(adj, Members(c))
    ensures InOneLayer(layerOf, c)
  {
    hide Reach, AdjacencyOf, IsComponent;
    forall e | e in edges ensures !Violates(layerOf, e.includer, e.included) { PairListed(edges, layerOf, e); }
    forall x, y | x in c && y in c
      ensures x in layerOf && y in layerOf && layerOf[x] == layerOf[y]
    {
      if x != y {
        CycleInOneLayer(edges, layerOf, adj, Members(c), x, y);
      } else {
        var z := if x == c[0] then c[1] else c[0];
        CycleHasLayer(edges, layerOf, adj, Members(c), x, z);
      }
    }
  }
}
