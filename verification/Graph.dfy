/** Directed graphs as the layering tools hold them: a map from a node to the set of nodes it uses.
    A node is a module or layer name; names are only ever compared, so a node is the position of the
    name in name order. */
module Graph {

  type Node = nat
  type Edges = map<Node, set<Node>>

  /** `adj.get(v, ())`: a node without an entry uses nothing. */
  function Succ(g: Edges, v: Node): set<Node> {
    if v in g then g[v] else {}
  }

  ghost predicate IsPath(g: Edges, p: seq<Node>) {
    |p| > 0 && forall i :: 0 <= i < |p| - 1 ==> p[i + 1] in Succ(g, p[i])
  }

  /** v is reached from u by zero or more edges. */
  ghost predicate Reach(g: Edges, u: Node, v: Node) {
    exists p :: IsPath(g, p) && p[0] == u && p[|p| - 1] == v
  }

  /** v is reached from u by one or more edges. */
  ghost predicate ReachPlus(g: Edges, u: Node, v: Node) {
    exists w :: w in Succ(g, u) && Reach(g, w, v)
  }

  ghost predicate Mutual(g: Edges, u: Node, v: Node) {
    Reach(g, u, v) && Reach(g, v, u)
  }

  /** A strongly connected component: non-empty, mutually reachable, and maximal. */
  ghost predicate IsComponent(g: Edges, c: set<Node>) {
    && c != {}
    && (forall x, y :: x in c && y in c ==> Reach(g, x, y))
    && (forall x, y :: x in c && Mutual(g, x, y) ==> y in c)
  }

  ghost predicate Acyclic(g: Edges) {
    forall v :: !ReachPlus(g, v, v)
  }

  lemma ReachSelf(g: Edges, u: Node)
    ensures Reach(g, u, u)
  {
    assert IsPath(g, [u]) && [u][0] == u && [u][|[u]| - 1] == u;
  }

  lemma ReachTransitive(g: Edges, u: Node, v: Node, w: Node)
    requires Reach(g, u, v) && Reach(g, v, w)
    ensures Reach(g, u, w)
  {
    var p :| IsPath(g, p) && p[0] == u && p[|p| - 1] == v;
    var q :| IsPath(g, q) && q[0] == v && q[|q| - 1] == w;
    var r := p + q[1..];
    forall i | 0 <= i < |r| - 1
      ensures r[i + 1] in Succ(g, r[i])
    {
      if i >= |p| - 1 {
        assert r[i] == q[i - (|p| - 1)] && r[i + 1] == q[i - (|p| - 1) + 1];
      }
    }
    assert r[|r| - 1] == w;
    assert IsPath(g, r) && r[0] == u && r[|r| - 1] == w;
  }

  lemma ReachEdge(g: Edges, u: Node, v: Node)
    requires v in Succ(g, u)
    ensures Reach(g, u, v)
  {
    var p := [u, v];
    assert IsPath(g, p) && p[0] == u && p[|p| - 1] == v;
  }

  /** The first step of a non-trivial path: u has an edge to some w that reaches v. */
  lemma ReachFirstEdge(g: Edges, u: Node, v: Node) returns (w: Node)
    requires Reach(g, u, v) && u != v
    ensures w in Succ(g, u) && Reach(g, w, v)
  {
    var p :| IsPath(g, p) && p[0] == u && p[|p| - 1] == v;
    w := p[1];
    var q := p[1..];
    assert IsPath(g, q) by {
      forall i | 0 <= i < |q| - 1
        ensures q[i + 1] in Succ(g, q[i])
      {
        assert q[i] == p[i + 1] && q[i + 1] == p[i + 2];
      }
    }
    assert q[0] == w && q[|q| - 1] == v;
  }

  lemma ReachPlusIsReach(g: Edges, u: Node, v: Node)
    ensures ReachPlus(g, u, v) ==> Reach(g, u, v)
    ensures Reach(g, u, v) && u != v ==> ReachPlus(g, u, v)
  {
    if ReachPlus(g, u, v) {
      var w :| w in Succ(g, u) && Reach(g, w, v);
      ReachEdge(g, u, w);
      ReachTransitive(g, u, w, v);
    }
    if Reach(g, u, v) && u != v {
      var w := ReachFirstEdge(g, u, v);
    }
  }

  /** A path that starts inside s and ends outside it takes an edge that leaves s. */
  lemma {:induction false} CrossingEdge(g: Edges, p: seq<Node>, s: set<Node>) returns (a: Node, b: Node)
    requires IsPath(g, p) && p[0] in s && p[|p| - 1] !in s
    ensures a in s && b in Succ(g, a) && b !in s && Reach(g, b, p[|p| - 1])
    decreases |p|
  {
    var q := p[1..];
    assert IsPath(g, q) by {
      forall i | 0 <= i < |q| - 1
        ensures q[i + 1] in Succ(g, q[i])
      {
        assert q[i] == p[i + 1] && q[i + 1] == p[i + 2];
      }
    }
    assert q[|q| - 1] == p[|p| - 1];
    if p[1] !in s {
      a, b := p[0], p[1];
      assert Reach(g, b, p[|p| - 1]);
    } else {
      a, b := CrossingEdge(g, q, s);
    }
  }

  lemma LeavesSet(g: Edges, u: Node, v: Node, s: set<Node>) returns (a: Node, b: Node)
    requires Reach(g, u, v) && u in s && v !in s
    ensures a in s && b in Succ(g, a) && b !in s && Reach(g, b, v)
  {
    var p :| IsPath(g, p) && p[0] == u && p[|p| - 1] == v;
    a, b := CrossingEdge(g, p, s);
  }

  /** What a set closed under edges holds, it holds of everything reached. */
  lemma ClosedHoldsReach(g: Edges, s: set<Node>, u: Node, v: Node)
    requires forall x :: x in s ==> Succ(g, x) <= s
    requires u in s && Reach(g, u, v)
    ensures v in s
  {
    if v !in s {
      var a, b := LeavesSet(g, u, v, s);
      assert false;
    }
  }
}
