/** `reachable` and `reduced` of tools/gen_layer_docs.py: which arrows of the layer diagram another path
    implies, and exactly when leaving them out keeps what the diagram says. */
module Reduction {
  import opened Graph
  import opened Order

  /** Every used layer is itself a layer, as `build` makes it (a missing one would be a KeyError). */
  ghost predicate Closed(uses: Edges) {
    forall a, b :: a in uses && b in uses[a] ==> b in uses
  }

  // ---- reachable -----------------------------------------------------------------------------------

  /** The worklist's invariant: what is seen or waiting is reached, and what is reached is seen, or waits
      behind something that does. */
  ghost predicate Exploring(uses: Edges, start: Node, seen: set<Node>, waiting: set<Node>) {
    && (forall v :: v in seen + waiting ==> ReachPlus(uses, start, v) && v in uses)
    && Succ(uses, start) <= seen + waiting
    && (forall v :: v in seen ==> Succ(uses, v) <= seen + waiting)
  }

  /** Every layer `start` reaches through one or more uses. */
  method Reachable(uses: Edges, start: Node) returns (seen: set<Node>)
    requires start in uses && Closed(uses)
    ensures forall v :: v in seen <==> ReachPlus(uses, start, v)
  {
    hide ReachPlus, Exploring, Members, SortedSet, Ascending;
    seen := {};
    var stack := SortedSet(uses[start]);
    StartExploring(uses, start);
    while stack != []
      invariant Exploring(uses, start, seen, Members(stack)) && seen <= uses.Keys
      decreases uses.Keys - seen, |stack|
    {
      var n := stack[|stack| - 1];
      var rest := stack[..|stack| - 1];
      assert stack == rest + [n];
      MembersPush(rest, n);
      WaitsInGraph(uses, start, seen, Members(rest), n);
      stack := rest;
      if n !in seen {
        Explore(uses, start, seen, Members(rest), n);
        seen := seen + {n};
        stack := stack + SortedSet(uses[n]);
        MembersPlus(rest, SortedSet(uses[n]));
      } else {
        Skip(uses, start, seen, Members(rest), n);
      }
    }
    MembersEmpty();
    Explored(uses, start, seen);
  }

  lemma WaitsInGraph(uses: Edges, start: Node, seen: set<Node>, waiting: set<Node>, n: Node)
    requires Exploring(uses, start, seen, waiting + {n})
    ensures n in uses
  {
    hide ReachPlus;
  }

  lemma StartExploring(uses: Edges, start: Node)
    requires start in uses && Closed(uses)
    ensures Exploring(uses, start, {}, uses[start])
  {
    forall v | v in uses[start] ensures ReachPlus(uses, start, v) && v in uses {
      ReachSelf(uses, v);
    }
  }

  lemma Explore(uses: Edges, start: Node, seen: set<Node>, waiting: set<Node>, n: Node)
    requires Closed(uses) && Exploring(uses, start, seen, waiting + {n}) && n in uses
    ensures Exploring(uses, start, seen + {n}, waiting + uses[n])
  {
    hide ReachPlus;
    assert n in seen + (waiting + {n});
    forall v | v in uses[n] ensures ReachPlus(uses, start, v) { ReachPlusStep(uses, start, n, v); }
  }

  lemma ReachPlusStep(g: Edges, u: Node, v: Node, w: Node)
    requires ReachPlus(g, u, v) && w in Succ(g, v)
    ensures ReachPlus(g, u, w)
  {
    hide Reach;
    var x :| x in Succ(g, u) && Reach(g, x, v);
    ReachEdge(g, v, w);
    ReachTransitive(g, x, v, w);
  }

  lemma Skip(uses: Edges, start: Node, seen: set<Node>, waiting: set<Node>, n: Node)
    requires Exploring(uses, start, seen, waiting + {n}) && n in seen
    ensures Exploring(uses, start, seen, waiting)
  {
    hide ReachPlus;
    assert seen + (waiting + {n}) == seen + waiting;
  }

  lemma Explored(uses: Edges, start: Node, seen: set<Node>)
    requires Exploring(uses, start, seen, {})
    ensures forall v :: v in seen <==> ReachPlus(uses, start, v)
  {
    hide Reach;
    assert seen + {} == seen;
    forall v | ReachPlus(uses, start, v) ensures v in seen {
      var w :| w in Succ(uses, start) && Reach(uses, w, v);
      ClosedHoldsReach(uses, seen, w, v);
    }
  }

  // ---- reduced -------------------------------------------------------------------------------------

  /** Another layer a uses already reaches b. */
  ghost predicate Implied(g: Edges, a: Node, b: Node) {
    exists c :: c in Succ(g, a) && c != b && ReachPlus(g, c, b)
  }

  ghost predicate Kept(g: Edges, a: Node, b: Node) {
    b in Succ(g, a) && !Implied(g, a, b)
  }

  ghost function ReducedOf(g: Edges): Edges {
    map a | a in g :: set b | b in g[a] && Kept(g, a, b)
  }

  lemma ReducedKeys(g: Edges)
    ensures ReducedOf(g).Keys == g.Keys
  {
  }

  lemma ReducedEdge(g: Edges, a: Node, b: Node)
    ensures b in Succ(ReducedOf(g), a) <==> Kept(g, a, b)
  {
  }

  /** The uses no other path implies. */
  method Reduced(uses: Edges) returns (r: Edges)
    requires Closed(uses)
    ensures r == ReducedOf(uses)
  {
    hide ReachPlus, ReducedOf, Kept, Ascending, Members, Closed, Filled, SortedSet;
    ghost var spec := ReducedOf(uses);
    ReducedKeys(uses);
    MembersEmpty();
    FilledNone(spec);
    r := map[];
    var order := SortedSet(uses.Keys);
    for k := 0 to |order|
      invariant Filled(spec, r, Members(order[..k]))
    {
      var a := order[k];
      InMembers(order, a);
      assert order[..k + 1] == order[..k] + [a];
      MembersPush(order[..k], a);
      var kept := KeptBy(uses, a);
      FillOne(spec, r, Members(order[..k]), a);
      r := r[a := kept];
    }
    assert order[..|order|] == order;
    FilledAll(spec, r);
  }

  /** r holds the entries of spec at `keys`. */
  ghost predicate Filled(spec: Edges, r: Edges, keys: set<Node>) {
    r.Keys == keys && keys <= spec.Keys && forall a :: a in keys ==> r[a] == spec[a]
  }

  lemma FilledNone(spec: Edges)
    ensures Filled(spec, map[], {})
  {
  }

  lemma FillOne(spec: Edges, r: Edges, keys: set<Node>, a: Node)
    requires Filled(spec, r, keys) && a in spec
    ensures Filled(spec, r[a := spec[a]], keys + {a})
  {
  }

  lemma FilledAll(spec: Edges, r: Edges)
    requires Filled(spec, r, spec.Keys)
    ensures r == spec
  {
  }

  /** The uses of one layer that stay. */
  method KeptBy(uses: Edges, a: Node) returns (kept: set<Node>)
    requires Closed(uses) && a in uses
    ensures kept == ReducedOf(uses)[a]
  {
    hide ReachPlus, Kept, Implied, Ascending, SortedSet;
    kept := {};
    var deps := SortedSet(uses[a]);
    for i := 0 to |deps|
      invariant kept == KeptAmong(uses, a, deps[..i])
    {
      var implied := AnyReaches(uses, a, deps, deps[i]);
      InMembers(deps, deps[i]);
      KeptIs(uses, a, deps[i]);
      KeptAmongPush(uses, a, deps[..i], deps[i]);
      assert deps[..i + 1] == deps[..i] + [deps[i]];
      if !implied {
        kept := kept + {deps[i]};
      }
    }
    assert deps[..|deps|] == deps;
    KeptAmongAll(uses, a, deps);
  }

  ghost function KeptAmong(g: Edges, a: Node, deps: seq<Node>): set<Node> {
    set b | b in deps && Kept(g, a, b)
  }

  lemma KeptIs(g: Edges, a: Node, b: Node)
    requires b in Succ(g, a)
    ensures Kept(g, a, b) <==> !Implied(g, a, b)
  {
    hide Implied;
  }

  lemma KeptAmongPush(g: Edges, a: Node, deps: seq<Node>, b: Node)
    ensures KeptAmong(g, a, deps + [b]) == KeptAmong(g, a, deps) + if Kept(g, a, b) then {b} else {}
  {
    hide Kept;
  }

  lemma KeptAmongAll(g: Edges, a: Node, deps: seq<Node>)
    requires a in g && Members(deps) == g[a]
    ensures KeptAmong(g, a, deps) == ReducedOf(g)[a]
  {
    hide Kept;
    forall b ensures b in deps <==> b in g[a] { InMembers(deps, b); }
  }

  method AnyReaches(uses: Edges, a: Node, deps: seq<Node>, b: Node) returns (implied: bool)
    requires Closed(uses) && a in uses && Members(deps) == uses[a]
    ensures implied <==> Implied(uses, a, b)
  {
    hide ReachPlus, Members;
    for i := 0 to |deps|
      invariant forall j :: 0 <= j < i && deps[j] != b ==> !ReachPlus(uses, deps[j], b)
    {
      var c := deps[i];
      InMembers(deps, c);
      if c != b {
        var seen := Reachable(uses, c);
        if b in seen { return true; }
      }
    }
    forall c | c in uses[a] && c != b ensures !ReachPlus(uses, c, b) { InMembers(deps, c); }
    return false;
  }

  // ---- what the reduction keeps --------------------------------------------------------------------

  ghost function Without(g: Edges, a: Node, b: Node): Edges {
    if a in g then g[a := g[a] - {b}] else g
  }

  /** A path survives in a graph with more edges. */
  lemma {:induction false} ReachMonotone(g: Edges, h: Edges, u: Node, v: Node)
    requires forall x :: Succ(g, x) <= Succ(h, x)
    requires Reach(g, u, v)
    ensures Reach(h, u, v)
  {
    var p :| IsPath(g, p) && p[0] == u && p[|p| - 1] == v;
    forall i | 0 <= i < |p| - 1 ensures p[i + 1] in Succ(h, p[i]) {
      assert p[i + 1] in Succ(g, p[i]);
    }
    assert IsPath(h, p);
  }

  /** No arrow that is drawn can be dropped: without it, even all the other uses together no longer
      lead from a to b. */
  lemma KeptIsNeeded(g: Edges, a: Node, b: Node)
    requires Kept(g, a, b)
    ensures !ReachPlus(Without(g, a, b), a, b)
  {
    hide Reach;
    var h := Without(g, a, b);
    if ReachPlus(h, a, b) {
      var c :| c in Succ(h, a) && Reach(h, c, b);
      ReachMonotone(h, g, c, b);
      ReachPlusIsReach(g, c, b);
    }
  }

  ghost predicate SameReachability(g: Edges, h: Edges) {
    forall x, y :: ReachPlus(g, x, y) <==> ReachPlus(h, x, y)
  }

  /** A layer on a cycle uses exactly one layer, and where a layer uses two layers of one cycle, it also
      uses a layer that leads into that cycle from outside. */
  ghost predicate Reducible(g: Edges) {
    && (forall a :: ReachPlus(g, a, a) ==> |Succ(g, a)| == 1)
    && (forall a, b, c :: b in Succ(g, a) && c in Succ(g, a) && b != c && ReachPlus(g, b, c) && ReachPlus(g, c, b)
          ==> exists d :: d in Succ(g, a) && Above(g, d, b))
  }

  /** d leads to b, and b does not lead back. */
  ghost predicate Above(g: Edges, d: Node, b: Node) {
    ReachPlus(g, d, b) && !ReachPlus(g, b, d)
  }

  lemma ReachPlusTransitive(g: Edges, u: Node, v: Node, w: Node)
    requires ReachPlus(g, u, v) && ReachPlus(g, v, w)
    ensures ReachPlus(g, u, w)
  {
    hide Reach;
    var x :| x in Succ(g, u) && Reach(g, x, v);
    ReachPlusIsReach(g, v, w);
    ReachTransitive(g, x, v, w);
  }

  /** The uses of a that lead to b from outside b's cycle. */
  ghost function AboveUses(g: Edges, a: Node, b: Node): set<Node> {
    set c | c in Succ(g, a) && Above(g, c, b)
  }

  lemma AboveShrinks(g: Edges, a: Node, b: Node, e: Node)
    requires e in Succ(g, a) && Above(g, e, b)
    ensures |AboveUses(g, a, e)| < |AboveUses(g, a, b)|
  {
    hide ReachPlus;
    var s, t := AboveUses(g, a, e), AboveUses(g, a, b);
    forall f | f in s ensures f in t {
      ReachPlusTransitive(g, f, e, b);
      if ReachPlus(g, b, f) { ReachPlusTransitive(g, b, f, e); }
    }
    assert e in t && e !in s;
    ProperSubsetSmaller(s, t, e);
  }

  lemma ProperSubsetSmaller(s: set<Node>, t: set<Node>, e: Node)
    requires s <= t && e in t && e !in s
    ensures |s| < |t|
  {
    assert t == s + (t - s);
    assert e in t - s;
  }

  /** A dropped use leads up to a kept one. */
  lemma {:induction false} ClimbToKept(g: Edges, a: Node, b: Node) returns (d: Node)
    requires Reducible(g) && b in Succ(g, a)
    ensures Kept(g, a, d) && Reach(g, d, b)
    decreases |AboveUses(g, a, b)|
  {
    hide Reach, ReachPlus;
    ReachSelf(g, b);
    if Kept(g, a, b) {
      d := b;
    } else {
      var e := StepUp(g, a, b);
      AboveShrinks(g, a, b, e);
      d := ClimbToKept(g, a, e);
      ReachPlusIsReach(g, e, b);
      ReachTransitive(g, d, e, b);
    }
  }

  lemma StepUp(g: Edges, a: Node, b: Node) returns (e: Node)
    requires Reducible(g) && b in Succ(g, a) && !Kept(g, a, b)
    ensures e in Succ(g, a) && Above(g, e, b)
  {
    hide ReachPlus;
    var c :| c in Succ(g, a) && c != b && ReachPlus(g, c, b);
    if ReachPlus(g, b, c) {
      e :| e in Succ(g, a) && Above(g, e, b);
    } else {
      e := c;
    }
  }

  /** Everything a leads to, as a finite set. */
  ghost function Beyond(g: Edges, a: Node): set<Node> {
    set v, w | v in g && w in g[v] && ReachPlus(g, a, w) :: w
  }

  lemma BeyondIs(g: Edges, a: Node, w: Node)
    ensures w in Beyond(g, a) <==> ReachPlus(g, a, w)
  {
    if ReachPlus(g, a, w) {
      var c :| c in Succ(g, a) && Reach(g, c, w);
      var p :| IsPath(g, p) && p[0] == c && p[|p| - 1] == w;
      if |p| == 1 {
        assert a in g && w in g[a];
      } else {
        var v := p[|p| - 2];
        assert p[|p| - 2 + 1] in Succ(g, v);
        assert v in g && w in g[v];
      }
    }
  }

  lemma BeyondShrinks(g: Edges, a: Node, x: Node)
    requires ReachPlus(g, a, x) && !ReachPlus(g, x, x)
    ensures |Beyond(g, x)| < |Beyond(g, a)|
  {
    hide ReachPlus;
    forall w | w in Beyond(g, x) ensures w in Beyond(g, a) {
      BeyondIs(g, x, w);
      BeyondIs(g, a, w);
      ReachPlusTransitive(g, a, x, w);
    }
    BeyondIs(g, a, x);
    BeyondIs(g, x, x);
    ProperSubsetSmaller(Beyond(g, x), Beyond(g, a), x);
  }

  /** On a cycle there is only one use, and it stays. */
  lemma CycleEdgeKept(g: Edges, a: Node, b: Node)
    requires Reducible(g) && ReachPlus(g, a, a) && b in Succ(g, a)
    ensures Kept(g, a, b)
  {
    hide ReachPlus;
    if Implied(g, a, b) {
      var c :| c in Succ(g, a) && c != b && ReachPlus(g, c, b);
      SubsetSmaller({b, c}, Succ(g, a));
    }
  }

  lemma SubsetSmaller(s: set<Node>, t: set<Node>)
    requires s <= t
    ensures |s| <= |t|
  {
    assert t == s + (t - s);
  }

  lemma {:induction false} EdgePreserved(g: Edges, a: Node, b: Node)
    requires Reducible(g) && b in Succ(g, a)
    ensures ReachPlus(ReducedOf(g), a, b)
    decreases |Beyond(g, a)|
  {
    hide Reach, ReachPlus, Kept, ReducedOf, Reducible;
    var h := ReducedOf(g);
    if ReachPlus(g, a, a) {
      CycleEdgeKept(g, a, b);
      KeptReached(g, a, b, b);
    } else {
      var d := ClimbToKept(g, a, b);
      forall x, y | Reach(g, d, x) && y in Succ(g, x) ensures ReachPlus(h, x, y) {
        if ReachPlus(g, x, x) {
          CycleEdgeKept(g, x, y);
          KeptReached(g, x, y, y);
        } else {
          KeptLeads(g, a, d, x);
          BeyondShrinks(g, a, x);
          EdgePreserved(g, x, y);
        }
      }
      ReachLift(g, h, d, b);
      KeptReached(g, a, d, b);
    }
  }

  lemma KeptLeads(g: Edges, a: Node, d: Node, x: Node)
    requires Kept(g, a, d) && Reach(g, d, x)
    ensures ReachPlus(g, a, x)
  {
    hide Reach;
  }

  lemma KeptReached(g: Edges, a: Node, d: Node, b: Node)
    requires Kept(g, a, d) && (d == b || Reach(ReducedOf(g), d, b))
    ensures ReachPlus(ReducedOf(g), a, b)
  {
    hide Reach;
    ReachSelf(ReducedOf(g), d);
    ReducedEdge(g, a, d);
  }

  /** If every edge met on the way is a path in h, so is the way. */
  lemma ReachLift(g: Edges, h: Edges, u: Node, v: Node)
    requires Reach(g, u, v)
    requires forall x, y :: Reach(g, u, x) && y in Succ(g, x) ==> ReachPlus(h, x, y)
    ensures Reach(h, u, v)
  {
    var p :| IsPath(g, p) && p[0] == u && p[|p| - 1] == v;
    PathLift(g, h, p, |p|);
  }

  lemma {:induction false} PathLift(g: Edges, h: Edges, p: seq<Node>, n: nat)
    requires IsPath(g, p) && 0 < n <= |p|
    requires forall x, y :: Reach(g, p[0], x) && y in Succ(g, x) ==> ReachPlus(h, x, y)
    ensures Reach(h, p[0], p[n - 1])
    decreases n
  {
    if n == 1 {
      ReachSelf(h, p[0]);
    } else {
      PathLift(g, h, p, n - 1);
      assert p[n - 2 + 1] in Succ(g, p[n - 2]);
      assert Reach(g, p[0], p[n - 2]) by { PathPrefix(g, p, n - 1); }
      ReachPlusIsReach(h, p[n - 2], p[n - 1]);
      ReachTransitive(h, p[0], p[n - 2], p[n - 1]);
    }
  }

  lemma PathPrefix(g: Edges, p: seq<Node>, n: nat)
    requires IsPath(g, p) && 0 < n <= |p|
    ensures Reach(g, p[0], p[n - 1])
  {
    var q := p[..n];
    forall i | 0 <= i < |q| - 1 ensures q[i + 1] in Succ(g, q[i]) { assert p[i + 1] in Succ(g, p[i]); }
    assert IsPath(g, q) && q[0] == p[0] && q[|q| - 1] == p[n - 1];
  }

  lemma ReducedIsSubgraph(g: Edges, x: Node, y: Node)
    requires ReachPlus(ReducedOf(g), x, y)
    ensures ReachPlus(g, x, y)
  {
    hide Reach, Kept;
    var h := ReducedOf(g);
    var w :| w in Succ(h, x) && Reach(h, w, y);
    ReducedEdge(g, x, w);
    assert w in Succ(g, x);
    ReachMonotone(h, g, w, y);
  }

  lemma ReducibleSuffices(g: Edges)
    requires Reducible(g)
    ensures SameReachability(g, ReducedOf(g))
  {
    hide Reach, Reducible, ReducedOf;
    var h := ReducedOf(g);
    forall x, y ensures ReachPlus(g, x, y) <==> ReachPlus(h, x, y) {
      if ReachPlus(h, x, y) { ReducedIsSubgraph(g, x, y); }
      if ReachPlus(g, x, y) {
        var w :| w in Succ(g, x) && Reach(g, w, y);
        forall u, v | Reach(g, w, u) && v in Succ(g, u) ensures ReachPlus(h, u, v) { EdgePreserved(g, u, v); }
        ReachLift(g, h, w, y);
        EdgePreserved(g, x, w);
        var z :| z in Succ(h, x) && Reach(h, z, w);
        ReachTransitive(h, z, w, y);
      }
    }
  }

  /** The use through which a node on a cycle leads back to itself. */
  lemma WayBack(g: Edges, a: Node) returns (c: Node)
    requires ReachPlus(g, a, a)
    ensures c in Succ(g, a) && Reach(g, c, a)
  {
    c :| c in Succ(g, a) && Reach(g, c, a);
  }

  /** From a node on a cycle only the way back can stay. */
  lemma OnlyWayBackKept(g: Edges, x: Node, y: Node, z: Node)
    requires y in Succ(g, x) && Reach(g, y, x) && Kept(g, x, z)
    ensures z == y
  {
    hide Reach;
    if z != y {
      ReachEdge(g, x, z);
      ReachTransitive(g, y, x, z);
      ReachPlusIsReach(g, y, z);
    }
  }

  /** So in the reduced graph nothing that is reached from a node on a cycle lies outside the cycle. */
  lemma {:induction false} StaysOnCycle(g: Edges, a: Node, p: seq<Node>, n: nat)
    requires ReachPlus(g, a, a) && IsPath(ReducedOf(g), p) && p[0] == a && 0 < n <= |p|
    ensures Mutual(g, a, p[n - 1])
    decreases n
  {
    hide Reach, Kept, ReducedOf;
    if n == 1 {
      ReachSelf(g, a);
    } else {
      StaysOnCycle(g, a, p, n - 1);
      var x, z := p[n - 2], p[n - 1];
      assert p[n - 2 + 1] in Succ(ReducedOf(g), x);
      ReducedEdge(g, x, z);
      var b := WayBack(g, a);
      MutualOnCycle(g, a, x);
      var y := WayBack(g, x);
      OnlyWayBackKept(g, x, y, z);
      ReachEdge(g, x, z);
      ReachTransitive(g, a, x, z);
      ReachTransitive(g, z, x, a);
    }
  }

  lemma MutualOnCycle(g: Edges, a: Node, x: Node)
    requires ReachPlus(g, a, a) && Mutual(g, a, x)
    ensures ReachPlus(g, x, x)
  {
    hide Reach;
    if x != a {
      ReachPlusIsReach(g, x, a);
      ReachPlusIsReach(g, a, x);
      ReachPlusTransitive(g, x, a, x);
    }
  }

  /** A node on a cycle that uses a second layer loses what that layer leads to. */
  lemma CycleNeedsOneUse(g: Edges, a: Node)
    requires SameReachability(g, ReducedOf(g)) && ReachPlus(g, a, a)
    ensures |Succ(g, a)| == 1
  {
    hide Reach, Kept, ReducedOf, ReachPlus;
    var c := WayBack(g, a);
    forall b | b in Succ(g, a) ensures b == c {
      EveryUseMutual(g, a, b);
      OneWayBack(g, a, b, c);
    }
    assert Succ(g, a) == {c};
  }

  lemma EveryUseMutual(g: Edges, a: Node, b: Node)
    requires SameReachability(g, ReducedOf(g)) && ReachPlus(g, a, a) && b in Succ(g, a)
    ensures Reach(g, b, a)
  {
    hide Kept, ReducedOf;
    var h := ReducedOf(g);
    ReachSelf(g, b);
    assert ReachPlus(g, a, b);
    assert ReachPlus(h, a, b);
    ReachPlusIsReach(h, a, b);
    var p :| IsPath(h, p) && p[0] == a && p[|p| - 1] == b;
    StaysOnCycle(g, a, p, |p|);
  }

  /** With two ways back both would be dropped, and the reduced graph would lead nowhere from a. */
  lemma OneWayBack(g: Edges, a: Node, b: Node, c: Node)
    requires SameReachability(g, ReducedOf(g)) && ReachPlus(g, a, a)
    requires b in Succ(g, a) && c in Succ(g, a) && Reach(g, b, a) && Reach(g, c, a)
    ensures b == c
  {
    hide Reach, Kept, ReducedOf;
    assert ReachPlus(ReducedOf(g), a, a);
    var z :| z in Succ(ReducedOf(g), a) && Reach(ReducedOf(g), z, a);
    ReducedEdge(g, a, z);
    OnlyWayBackKept(g, a, b, z);
    OnlyWayBackKept(g, a, c, z);
  }

  /** Two uses on one cycle are both dropped, so something above the cycle has to stay. */
  lemma CycleNeedsEntry(g: Edges, a: Node, b: Node, c: Node) returns (d: Node)
    requires SameReachability(g, ReducedOf(g))
    requires b in Succ(g, a) && c in Succ(g, a) && b != c && ReachPlus(g, b, c) && ReachPlus(g, c, b)
    ensures d in Succ(g, a) && Above(g, d, b)
  {
    hide Reach, ReducedOf;
    var h := ReducedOf(g);
    ReachSelf(g, b);
    assert ReachPlus(g, a, b);
    assert ReachPlus(h, a, b);
    d :| d in Succ(h, a) && Reach(h, d, b);
    ReducedEdge(g, a, d);
    assert Implied(g, a, b);
    ReachPlusIsReach(h, d, b);
    assert ReachPlus(g, d, b);
    assert !ReachPlus(g, b, d);
  }

  /** The diagram says exactly what the table says if and only if the uses are Reducible. */
  lemma ReductionPreservesIff(g: Edges)
    ensures SameReachability(g, ReducedOf(g)) <==> Reducible(g)
  {
    hide ReachPlus, ReducedOf;
    if Reducible(g) { ReducibleSuffices(g); }
    if SameReachability(g, ReducedOf(g)) {
      forall a | ReachPlus(g, a, a) ensures |Succ(g, a)| == 1 { CycleNeedsOneUse(g, a); }
      forall a, b, c | b in Succ(g, a) && c in Succ(g, a) && b != c && ReachPlus(g, b, c) && ReachPlus(g, c, b)
        ensures exists d :: d in Succ(g, a) && Above(g, d, b)
      {
        var d := CycleNeedsEntry(g, a, b, c);
      }
    }
  }

  lemma AcyclicIsReducible(g: Edges)
    requires Acyclic(g)
    ensures Reducible(g)
  {
    hide ReachPlus;
    forall a, b, c | b in Succ(g, a) && c in Succ(g, a) && b != c && ReachPlus(g, b, c) && ReachPlus(g, c, b)
      ensures false
    {
      ReachPlusTransitive(g, b, c, b);
    }
  }

  /** Two layers that use each other, both used by a third: both arrows into them are dropped, and the
      diagram no longer shows that the third uses anything. */
  lemma CyclicUsesLost()
    ensures var g := map[0 := {1, 2}, 1 := {2}, 2 := {1}];
            ReachPlus(g, 0, 1) && !ReachPlus(ReducedOf(g), 0, 1)
  {
    var g: Edges := map[0 := {1, 2}, 1 := {2}, 2 := {1}];
    ReachSelf(g, 1);
    ReachSelf(g, 2);
    ReachEdge(g, 1, 2);
    ReachEdge(g, 2, 1);
    assert 1 in Succ(g, 0) && 2 in Succ(g, 0) && 1 in Succ(g, 2) && 2 in Succ(g, 1);
    assert ReachPlus(g, 1, 2) && ReachPlus(g, 2, 1);
    forall z ensures z !in Succ(ReducedOf(g), 0) { ReducedEdge(g, 0, z); }
  }
}
