/** `strongly_connected` of tools/check_layers.py: Tarjan's algorithm over the include graph, with the
    index and low-link maps, the stack and the on-stack set it updates in place. */
module Tarjan {
  import opened Graph
  import opened Order

  /** The nodes of the components already popped. */
  ghost function Settled(comps: set<set<Node>>): set<Node> {
    set c, v | c in comps && v in c :: v
  }

  /** What the search has done so far; `comps` is every component popped, single modules included. */
  datatype Progress = Progress(index: map<Node, nat>, stack: seq<Node>, counter: nat, comps: set<set<Node>>)

  ghost predicate Numbered(s: Progress) {
    && (forall v :: v in s.index ==> s.index[v] < s.counter)
    && (forall v :: v in s.stack ==> v in s.index)
    && (forall i, j :: 0 <= i < j < |s.stack| ==> s.index[s.stack[i]] < s.index[s.stack[j]])
  }

  /** Every visited node is on the stack or in one popped component, not both. */
  ghost predicate Partitioned(s: Progress) {
    && (forall v :: v in s.index <==> v in s.stack || v in Settled(s.comps))
    && (forall v :: v in s.stack ==> v !in Settled(s.comps))
  }

  /** Only a node whose call is still open has unvisited successors; popped components are closed. */
  ghost predicate EdgesDone(g: Edges, open: set<Node>, s: Progress) {
    && (forall v, w :: v in s.index && v !in open && w in Succ(g, v) ==> w in s.index)
    && (forall v, w :: v in Settled(s.comps) && w in Succ(g, v) ==> w in Settled(s.comps))
  }

  /** An open node reaches whatever is above it on the stack. */
  ghost predicate OpenReaches(g: Edges, open: set<Node>, s: Progress)
    requires Numbered(s)
  {
    && (forall x :: x in open ==> x in s.stack)
    && (forall x, y :: x in open && y in s.stack && s.index[x] <= s.index[y] ==> Reach(g, x, y))
  }

  ghost predicate Anchored(g: Edges, open: set<Node>, s: Progress, y: Node)
    requires y in s.index
  {
    exists x :: x in open && x in s.index && s.index[x] <= s.index[y] && Reach(g, y, x)
  }

  /** A stacked node reaches an open node at or below it. */
  ghost predicate StackAnchored(g: Edges, open: set<Node>, s: Progress)
    requires Numbered(s)
  {
    forall y :: y in s.stack ==> Anchored(g, open, s, y)
  }

  ghost predicate AllComponents(g: Edges, s: Progress) {
    forall c :: c in s.comps ==> IsComponent(g, c)
  }

  ghost predicate Invariant(g: Edges, open: set<Node>, s: Progress) {
    && Numbered(s) && Partitioned(s) && EdgesDone(g, open, s)
    && OpenReaches(g, open, s) && StackAnchored(g, open, s) && AllComponents(g, s)
  }

  /** l bounds the index of every stack node below position n that a stack node from n on has an edge to,
      edges from v into `pending` left out. */
  ghost predicate BoundsExits(g: Edges, s: Progress, n: nat, l: nat, v: Node, pending: set<Node>)
    requires Numbered(s)
  {
    forall i, j :: 0 <= j < n <= i < |s.stack| && s.stack[j] in Succ(g, s.stack[i])
        && !(s.stack[i] == v && s.stack[j] in pending)
      ==> l <= s.index[s.stack[j]]
  }

  /** l is the index of a stack node v reaches. */
  ghost predicate Attained(g: Edges, s: Progress, v: Node, l: nat)
    requires Numbered(s)
  {
    exists y :: y in s.stack && s.index[y] == l && Reach(g, v, y)
  }

  /** s' continues s: nothing renumbered, nothing popped below s's stack, no component forgotten. */
  ghost predicate Continues(s: Progress, s': Progress) {
    && (forall v :: v in s.index ==> v in s'.index && s'.index[v] == s.index[v])
    && s.stack <= s'.stack && s.counter <= s'.counter && s.comps <= s'.comps
    && (forall v :: v in s'.index && v !in s.index ==> s.counter <= s'.index[v])
  }

  ghost function Pushed(s: Progress, v: Node): Progress {
    s.(index := s.index[v := s.counter], stack := s.stack + [v], counter := s.counter + 1)
  }

  lemma PushNumbered(s: Progress, v: Node)
    requires Numbered(s) && v !in s.index
    ensures Numbered(Pushed(s, v)) && Continues(s, Pushed(s, v))
  {
  }

  lemma PushReaches(g: Edges, open: set<Node>, s: Progress, v: Node)
    requires Numbered(s) && Numbered(Pushed(s, v)) && v !in s.index
    requires OpenReaches(g, open, s) && StackAnchored(g, open, s)
    requires forall x :: x in open ==> Reach(g, x, v)
    ensures OpenReaches(g, open + {v}, Pushed(s, v)) && StackAnchored(g, open + {v}, Pushed(s, v))
    ensures Attained(g, Pushed(s, v), v, s.counter)
  {
    hide Reach;
    ReachSelf(g, v);
  }

  lemma PushEdges(g: Edges, open: set<Node>, s: Progress, v: Node)
    requires Partitioned(s) && EdgesDone(g, open, s) && v !in s.index
    ensures Partitioned(Pushed(s, v)) && EdgesDone(g, open + {v}, Pushed(s, v))
  {
  }

  lemma PushExits(g: Edges, s: Progress, v: Node)
    requires Numbered(s) && Numbered(Pushed(s, v)) && v !in s.index
    ensures BoundsExits(g, Pushed(s, v), |s.stack|, s.counter, v, Succ(g, v))
  {
  }

  lemma PushKeeps(g: Edges, open: set<Node>, s: Progress, v: Node)
    requires Invariant(g, open, s) && v !in s.index
    requires forall x :: x in open ==> Reach(g, x, v)
    ensures Invariant(g, open + {v}, Pushed(s, v))
    ensures Continues(s, Pushed(s, v))
    ensures Attained(g, Pushed(s, v), v, s.counter)
    ensures BoundsExits(g, Pushed(s, v), |s.stack|, s.counter, v, Succ(g, v))
  {
    hide Numbered, Partitioned, EdgesDone, OpenReaches, StackAnchored, Continues, Attained, BoundsExits, Reach;
    PushNumbered(s, v);
    PushReaches(g, open, s, v);
    PushEdges(g, open, s, v);
    PushExits(g, s, v);
  }

  /** The successor w of v was visited: low[v] becomes the smaller of the two low-links. */
  lemma VisitedExits(g: Edges, s: Progress, s': Progress, n: nat, v: Node, l: nat, lw: nat, w: Node, pending: set<Node>)
    requires Numbered(s) && Numbered(s') && Continues(s, s') && w !in s.index && n <= |s.stack|
    requires BoundsExits(g, s, n, l, v, pending)
    requires BoundsExits(g, s', |s.stack|, lw, w, {})
    ensures BoundsExits(g, s', n, if lw < l then lw else l, v, pending - {w})
  {
    forall i, j | 0 <= j < n <= i < |s'.stack| && s'.stack[j] in Succ(g, s'.stack[i])
        && !(s'.stack[i] == v && s'.stack[j] in pending - {w})
      ensures (if lw < l then lw else l) <= s'.index[s'.stack[j]]
    {
      assert s'.stack[j] == s.stack[j] && s.stack[j] in s.stack;
      if i < |s.stack| {
        assert s'.stack[i] == s.stack[i];
      }
    }
  }

  /** The successor w of v was seen before: on the stack, its index bounds low[v]; popped, it is no exit. */
  lemma SeenExits(g: Edges, s: Progress, n: nat, v: Node, l: nat, w: Node, pending: set<Node>)
    requires Numbered(s) && w in s.index
    requires BoundsExits(g, s, n, l, v, pending)
    ensures w in s.stack && s.index[w] < l ==> BoundsExits(g, s, n, s.index[w], v, pending - {w})
    ensures w in s.stack && l <= s.index[w] ==> BoundsExits(g, s, n, l, v, pending - {w})
    ensures w !in s.stack ==> BoundsExits(g, s, n, l, v, pending - {w})
  {
  }

  /** All calls below v on the stack are still open, v's own loop is over, and low[v] bounds its exits. */
  ghost predicate Finishing(g: Edges, open: set<Node>, s: Progress, n: nat, v: Node) {
    && Invariant(g, open + {v}, s)
    && n < |s.stack| && s.stack[n] == v
    && (forall w :: w in Succ(g, v) ==> w in s.index)
    && (forall x :: x in open ==> x in s.stack[..n])
  }

  lemma FinishedEdges(g: Edges, open: set<Node>, s: Progress, n: nat, v: Node)
    requires Finishing(g, open, s, n, v)
    ensures EdgesDone(g, open, s)
  {
    hide Reach, Numbered, Partitioned, OpenReaches, StackAnchored, AllComponents;
  }

  /** With low[v] == index[v], an edge out of the stack from v on leads to a popped component. */
  lemma SuffixExit(g: Edges, open: set<Node>, s: Progress, n: nat, v: Node, a: Node, b: Node)
    requires Numbered(s) && Partitioned(s) && EdgesDone(g, open, s)
    requires n < |s.stack| && s.stack[n] == v
    requires forall x :: x in open ==> x in s.stack[..n]
    requires BoundsExits(g, s, n, s.index[v], v, {})
    requires a in s.stack[n..] && b in Succ(g, a) && b !in s.stack[n..]
    ensures b in Settled(s.comps)
  {
    assert a !in open && b in s.index;
  }

  /** So nothing that leaves the suffix comes back to the stack. */
  lemma SuffixNeverLeft(g: Edges, open: set<Node>, s: Progress, n: nat, v: Node, x: Node, y: Node)
    requires Finishing(g, open, s, n, v)
    requires BoundsExits(g, s, n, s.index[v], v, {})
    requires x in s.stack[n..] && y in s.stack && Reach(g, x, y)
    ensures y in s.stack[n..]
  {
    hide Reach, IsComponent, OpenReaches, StackAnchored;
    if y !in s.stack[n..] {
      FinishedEdges(g, open, s, n, v);
      var a, b := LeavesSet(g, x, y, Members(s.stack[n..]));
      SuffixExit(g, open, s, n, v, a, b);
      ClosedHoldsReach(g, Settled(s.comps), b, y);
      assert false;
    }
  }

  lemma StackPosition(s: Progress, n: nat, x: Node, y: Node)
    requires Numbered(s) && n < |s.stack|
    requires x in s.stack[..n] && y in s.stack[n..]
    ensures x in s.stack && y in s.stack && s.stack[n] in s.stack
    ensures s.index[x] < s.index[s.stack[n]] <= s.index[y]
  {
    var i :| 0 <= i < n && s.stack[i] == x;
    var j :| n <= j < |s.stack| && s.stack[j] == y;
  }

  lemma AboveOnStack(s: Progress, n: nat, y: Node)
    requires Numbered(s) && n < |s.stack| && y in s.stack[n..]
    ensures y in s.stack && s.stack[n] in s.stack && s.index[s.stack[n]] <= s.index[y]
  {
    var j :| n <= j < |s.stack| && s.stack[j] == y;
  }

  /** Every node from v on is mutually reachable with v. */
  lemma SuffixMutual(g: Edges, open: set<Node>, s: Progress, n: nat, v: Node, y: Node)
    requires Finishing(g, open, s, n, v)
    requires BoundsExits(g, s, n, s.index[v], v, {})
    requires y in s.stack[n..]
    ensures Mutual(g, v, y)
  {
    hide Reach, EdgesDone, BoundsExits, Numbered, Partitioned, AllComponents, StackAnchored;
    AboveOnStack(s, n, y);
    var x := AnchorOf(g, open + {v}, s, y);
    if x != v {
      StackPosition(s, n, x, y);
      SuffixNeverLeft(g, open, s, n, v, y, x);
      AboveOnStack(s, n, x);
    }
  }

  lemma AnchorOf(g: Edges, open: set<Node>, s: Progress, y: Node) returns (x: Node)
    requires Numbered(s) && StackAnchored(g, open, s) && y in s.stack
    ensures x in open && x in s.index && s.index[x] <= s.index[y] && Reach(g, y, x)
  {
    hide Reach;
    assert Anchored(g, open, s, y);
    x :| x in open && x in s.index && s.index[x] <= s.index[y] && Reach(g, y, x);
  }

  lemma SuffixIsComponent(g: Edges, open: set<Node>, s: Progress, n: nat, v: Node)
    requires Finishing(g, open, s, n, v)
    requires BoundsExits(g, s, n, s.index[v], v, {})
    ensures IsComponent(g, Members(s.stack[n..]))
  {
    hide Reach, EdgesDone, BoundsExits, Numbered, Partitioned, OpenReaches, StackAnchored;
    var c := Members(s.stack[n..]);
    assert s.stack[n..][0] == v && v in c;
    forall x, y | x in c && y in c ensures Reach(g, x, y) {
      SuffixMutual(g, open, s, n, v, x);
      SuffixMutual(g, open, s, n, v, y);
      ReachTransitive(g, x, v, y);
    }
    forall x, y | x in c && Mutual(g, x, y) ensures y in c {
      MutualStays(g, open, s, n, v, x, y);
    }
  }

  /** What is mutually reachable with a node of the suffix is in the suffix. */
  lemma MutualStays(g: Edges, open: set<Node>, s: Progress, n: nat, v: Node, x: Node, y: Node)
    requires Finishing(g, open, s, n, v)
    requires BoundsExits(g, s, n, s.index[v], v, {})
    requires x in s.stack[n..] && Mutual(g, x, y)
    ensures y in s.stack[n..]
  {
    hide Reach, IsComponent, OpenReaches, StackAnchored;
    if y !in s.stack[n..] {
      FinishedEdges(g, open, s, n, v);
      var a, b := LeavesSet(g, x, y, Members(s.stack[n..]));
      SuffixExit(g, open, s, n, v, a, b);
      ClosedHoldsReach(g, Settled(s.comps), b, y);
      ClosedHoldsReach(g, Settled(s.comps), y, x);
      assert false;
    }
  }

  ghost function Popped(s: Progress, n: nat): Progress
    requires n <= |s.stack|
  {
    s.(stack := s.stack[..n], comps := s.comps + {Members(s.stack[n..])})
  }

  lemma SettledGrows(comps: set<set<Node>>, c: set<Node>)
    ensures Settled(comps + {c}) == Settled(comps) + c
  {
  }

  lemma PopNumbered(s: Progress, n: nat)
    requires Numbered(s) && Partitioned(s) && n <= |s.stack|
    ensures Numbered(Popped(s, n)) && Partitioned(Popped(s, n))
  {
    SettledGrows(s.comps, Members(s.stack[n..]));
    var t := Popped(s, n);
    assert s.stack == s.stack[..n] + s.stack[n..];
    forall x | x in t.stack ensures x !in Settled(t.comps) {
      if x in s.stack[n..] { StackPosition(s, n, x, x); }
    }
  }

  lemma PopEdges(g: Edges, open: set<Node>, s: Progress, n: nat, v: Node)
    requires Numbered(s) && Partitioned(s) && EdgesDone(g, open, s)
    requires n < |s.stack| && s.stack[n] == v
    requires forall x :: x in open ==> x in s.stack[..n]
    requires BoundsExits(g, s, n, s.index[v], v, {})
    ensures EdgesDone(g, open, Popped(s, n))
  {
    hide Numbered, Partitioned, BoundsExits;
    SettledGrows(s.comps, Members(s.stack[n..]));
    var t := Popped(s, n);
    forall x, w | x in Settled(t.comps) && w in Succ(g, x) ensures w in Settled(t.comps) {
      if x in s.stack[n..] && w !in s.stack[n..] { SuffixExit(g, open, s, n, v, x, w); }
    }
  }

  /** An anchor of a node below v is not v. */
  lemma PopAnchored(g: Edges, open: set<Node>, s: Progress, n: nat, v: Node, y: Node)
    requires Numbered(s) && n < |s.stack| && s.stack[n] == v && y in s.stack[..n]
    requires StackAnchored(g, open + {v}, s)
    ensures y in s.index && Anchored(g, open, Popped(s, n), y)
  {
    hide Reach, StackAnchored;
    StackPosition(s, n, y, v);
    var x := AnchorOf(g, open + {v}, s, y);
    assert x in open;
  }

  lemma PopReaches(g: Edges, open: set<Node>, s: Progress, n: nat, v: Node)
    requires Numbered(s) && n < |s.stack| && s.stack[n] == v && Numbered(Popped(s, n))
    requires OpenReaches(g, open + {v}, s)
    requires forall x :: x in open ==> x in s.stack[..n]
    ensures OpenReaches(g, open, Popped(s, n))
  {
    hide Reach;
  }

  lemma PopAllAnchored(g: Edges, open: set<Node>, s: Progress, n: nat, v: Node)
    requires Numbered(s) && n < |s.stack| && s.stack[n] == v && Numbered(Popped(s, n))
    requires StackAnchored(g, open + {v}, s)
    ensures StackAnchored(g, open, Popped(s, n))
  {
    hide Anchored;
    forall y | y in s.stack[..n] ensures Anchored(g, open, Popped(s, n), y) { PopAnchored(g, open, s, n, v, y); }
  }

  /** low[v] == index[v]: the stack from v on is one component, and popping it keeps the invariant. */
  lemma PopKeeps(g: Edges, open: set<Node>, s: Progress, n: nat, v: Node)
    requires Finishing(g, open, s, n, v)
    requires BoundsExits(g, s, n, s.index[v], v, {})
    ensures IsComponent(g, Members(s.stack[n..]))
    ensures Invariant(g, open, Popped(s, n))
    ensures Members(s.stack[n..]) !in s.comps
  {
    hide Reach, Numbered, Partitioned, EdgesDone, OpenReaches, StackAnchored, BoundsExits, IsComponent;
    SuffixIsComponent(g, open, s, n, v);
    FinishedEdges(g, open, s, n, v);
    PopNumbered(s, n);
    PopEdges(g, open, s, n, v);
    PopReaches(g, open, s, n, v);
    PopAllAnchored(g, open, s, n, v);
    NotYetPopped(s, n);
  }

  lemma NotYetPopped(s: Progress, n: nat)
    requires Partitioned(s) && n < |s.stack|
    ensures Members(s.stack[n..]) !in s.comps
  {
    assert s.stack[n] in Members(s.stack[n..]);
    assert s.stack[n] in s.stack;
  }

  /** low[v] < index[v]: what v anchored is anchored below v. */
  lemma StayAnchored(g: Edges, open: set<Node>, s: Progress, v: Node, l: nat, y: Node)
    requires Numbered(s) && StackAnchored(g, open + {v}, s) && v in s.stack && y in s.stack
    requires Attained(g, s, v, l) && l < s.index[v]
    ensures Anchored(g, open, s, y)
  {
    hide Reach, StackAnchored;
    var x := AnchorOf(g, open + {v}, s, y);
    if x == v {
      var z :| z in s.stack && s.index[z] == l && Reach(g, v, z);
      var a := AnchorOf(g, open + {v}, s, z);
      ReachTransitive(g, v, z, a);
      ReachTransitive(g, y, v, a);
      assert a in open;
    } else {
      assert x in open;
    }
  }

  /** low[v] < index[v]: v stays on the stack. */
  lemma StayKeeps(g: Edges, open: set<Node>, s: Progress, n: nat, v: Node, l: nat)
    requires Finishing(g, open, s, n, v)
    requires Attained(g, s, v, l) && l < s.index[v]
    ensures Invariant(g, open, s)
  {
    hide Reach, EdgesDone, Partitioned, AllComponents, Attained, Numbered, OpenReaches, StackAnchored;
    FinishedEdges(g, open, s, n, v);
    assert v in s.stack;
    StayReaches(g, open, s, v, l);
  }

  lemma StayReaches(g: Edges, open: set<Node>, s: Progress, v: Node, l: nat)
    requires Numbered(s) && v in s.stack && OpenReaches(g, open + {v}, s) && StackAnchored(g, open + {v}, s)
    requires Attained(g, s, v, l) && l < s.index[v]
    ensures OpenReaches(g, open, s) && StackAnchored(g, open, s)
  {
    hide Reach, Attained, Anchored;
    forall y | y in s.stack ensures Anchored(g, open, s, y) { StayAnchored(g, open, s, v, l, y); }
  }

  /** The loop over v's successors: l is low[v], `pending` the successors still to come. */
  ghost predicate Looping(g: Edges, open: set<Node>, s0: Progress, s: Progress, v: Node, l: nat, pending: set<Node>) {
    && Invariant(g, open + {v}, s) && Continues(Pushed(s0, v), s)
    && BoundsExits(g, s, |s0.stack|, l, v, pending) && Attained(g, s, v, l) && l <= s0.counter
    && (forall w :: w in Succ(g, v) && w !in pending ==> w in s.index)
  }

  /** What a call of `visit` has done when it returns: lw is low[w]. */
  ghost predicate Returned(g: Edges, open: set<Node>, s: Progress, s': Progress, w: Node, lw: nat) {
    && Invariant(g, open, s') && Continues(s, s') && w in s'.index && s.counter <= s'.index[w]
    && BoundsExits(g, s', |s.stack|, lw, w, {})
    && (w in s'.stack ==> lw < s'.index[w] && Attained(g, s', w, lw))
    && (w !in s'.stack ==> lw == s'.index[w])
  }

  lemma ContinuesTransitive(a: Progress, b: Progress, c: Progress)
    requires Continues(a, b) && Continues(b, c)
    ensures Continues(a, c)
  {
    forall v | v in c.index && v !in a.index ensures a.counter <= c.index[v] {
      if v in b.index { assert c.index[v] == b.index[v]; }
    }
  }

  lemma AttainedKept(g: Edges, s: Progress, s': Progress, v: Node, l: nat)
    requires Numbered(s) && Numbered(s') && Continues(s, s') && Attained(g, s, v, l)
    ensures Attained(g, s', v, l)
  {
    hide Reach;
    var y :| y in s.stack && s.index[y] == l && Reach(g, v, y);
    assert y in s'.stack;
  }

  lemma AttainedThrough(g: Edges, s: Progress, v: Node, w: Node, l: nat)
    requires Numbered(s) && w in Succ(g, v) && Attained(g, s, w, l)
    ensures Attained(g, s, v, l)
  {
    hide Reach;
    var y :| y in s.stack && s.index[y] == l && Reach(g, w, y);
    ReachEdge(g, v, w);
    ReachTransitive(g, v, w, y);
  }

  lemma AfterVisit(g: Edges, open: set<Node>, s0: Progress, s: Progress, s': Progress, v: Node, l: nat, w: Node,
                   lw: nat, pending: set<Node>)
    requires Looping(g, open, s0, s, v, l, pending) && w in Succ(g, v) && w !in s.index
    requires Returned(g, open + {v}, s, s', w, lw)
    ensures Looping(g, open, s0, s', v, if lw < l then lw else l, pending - {w})
  {
    hide Numbered, Partitioned, EdgesDone, OpenReaches, StackAnchored, AllComponents, BoundsExits, Attained;
    VisitedExits(g, s, s', |s0.stack|, v, l, lw, w, pending);
    ContinuesTransitive(Pushed(s0, v), s, s');
    if lw < l { AttainedThrough(g, s', v, w, lw); } else { AttainedKept(g, s, s', v, l); }
  }

  lemma AfterSeen(g: Edges, open: set<Node>, s0: Progress, s: Progress, v: Node, l: nat, w: Node, pending: set<Node>)
    requires Looping(g, open, s0, s, v, l, pending) && w in Succ(g, v) && w in s.index
    ensures w in s.stack && s.index[w] < l ==> Looping(g, open, s0, s, v, s.index[w], pending - {w})
    ensures w in s.stack && l <= s.index[w] ==> Looping(g, open, s0, s, v, l, pending - {w})
    ensures w !in s.stack ==> Looping(g, open, s0, s, v, l, pending - {w})
  {
    hide Numbered, Partitioned, EdgesDone, OpenReaches, StackAnchored, AllComponents, BoundsExits, Continues, Reach;
    SeenExits(g, s, |s0.stack|, v, l, w, pending);
    ReachEdge(g, v, w);
  }

  lemma OpenReachesNext(g: Edges, open: set<Node>, v: Node, w: Node)
    requires w in Succ(g, v)
    requires forall y :: y in open ==> Reach(g, y, v)
    ensures forall x :: x in open + {v} ==> Reach(g, x, w)
  {
    hide Reach;
    ReachEdge(g, v, w);
    forall x | x in open ensures Reach(g, x, w) { ReachTransitive(g, x, v, w); }
  }

  lemma EnterLoop(g: Edges, open: set<Node>, s: Progress, v: Node)
    requires Invariant(g, open, s) && v !in s.index
    requires forall x :: x in open ==> Reach(g, x, v)
    ensures Looping(g, open, s, Pushed(s, v), v, s.counter, Succ(g, v))
    ensures Invariant(g, open + {v}, Pushed(s, v))
  {
    hide Numbered, Partitioned, EdgesDone, OpenReaches, StackAnchored, AllComponents, BoundsExits, Attained, Reach;
    PushKeeps(g, open, s, v);
  }

  lemma ReachesThrough(g: Edges, before: set<Node>, after: set<Node>, v: Node, w: Node)
    requires w in Succ(g, v) && forall u :: u in after && u !in before ==> Reach(g, w, u)
    ensures forall u :: u in after && u !in before ==> Reach(g, v, u)
  {
    hide Reach;
    ReachEdge(g, v, w);
    forall u | u in after && u !in before ensures Reach(g, v, u) { ReachTransitive(g, v, w, u); }
  }

  lemma LoopDone(g: Edges, open: set<Node>, s0: Progress, s: Progress, v: Node, l: nat)
    requires Invariant(g, open, s0) && Looping(g, open, s0, s, v, l, {}) && v !in s0.index
    ensures Finishing(g, open, s, |s0.stack|, v)
    ensures s.stack[..|s0.stack|] == s0.stack && s.index[v] == s0.counter && Continues(s0, s)
  {
    hide Partitioned, EdgesDone, StackAnchored, AllComponents, BoundsExits, Attained, Reach;
    assert s.stack[|s0.stack|] == v;
    PushNumbered(s0, v);
    ContinuesTransitive(s0, Pushed(s0, v), s);
  }

  /** The lists reported so far are the popped components with more than one module, each once. */
  ghost predicate Reported(out: seq<seq<Node>>, comps: set<set<Node>>) {
    && Distinct(out)
    && (forall c :: c in out ==> Ascending(c) && |c| > 1 && Members(c) in comps)
    && (forall c :: c in comps && |c| > 1 ==> SortedSet(c) in out)
  }

  lemma ReportOne(out: seq<seq<Node>>, comps: set<set<Node>>, c: set<Node>)
    requires Reported(out, comps) && c !in comps && |c| > 1
    ensures Reported(out + [SortedSet(c)], comps + {c})
  {
    hide Ascending;
    var x: seq<Node>, out' := SortedSet(c), out + [SortedSet(c)];
    assert x !in out;
    assert out'[|out|] == x;
    assert forall d :: d in out' ==> d in out || d == x;
    assert forall d :: d in out ==> d in out';
  }

  lemma ReportNone(out: seq<seq<Node>>, comps: set<set<Node>>, c: set<Node>)
    requires Reported(out, comps) && |c| <= 1
    ensures Reported(out, comps + {c})
  {
    hide Ascending;
  }

  lemma StackDistinct(s: Progress)
    requires Numbered(s)
    ensures Distinct(s.stack)
  {
  }

  /** `visit` returns with v's component popped. */
  lemma ReturnPopped(g: Edges, open: set<Node>, s0: Progress, s: Progress, v: Node)
    requires Invariant(g, open, s0) && v !in s0.index && Looping(g, open, s0, s, v, s0.counter, {})
    ensures |s0.stack| < |s.stack| && s.stack[|s0.stack|] == v && Distinct(s.stack)
    ensures IsComponent(g, Members(s.stack[|s0.stack|..])) && Members(s.stack[|s0.stack|..]) !in s.comps
    ensures Returned(g, open, s0, Popped(s, |s0.stack|), v, s0.counter)
    ensures Invariant(g, open, Popped(s, |s0.stack|))
  {
    hide Partitioned, EdgesDone, OpenReaches, StackAnchored, AllComponents, Attained, Reach, IsComponent;
    LoopDone(g, open, s0, s, v, s0.counter);
    PopKeeps(g, open, s, |s0.stack|, v);
    StackDistinct(s);
  }

  /** `visit` returns with v left on the stack. */
  lemma ReturnStacked(g: Edges, open: set<Node>, s0: Progress, s: Progress, v: Node, l: nat)
    requires Invariant(g, open, s0) && v !in s0.index && Looping(g, open, s0, s, v, l, {}) && l < s0.counter
    ensures Returned(g, open, s0, s, v, l) && Invariant(g, open, s)
  {
    hide Partitioned, EdgesDone, OpenReaches, StackAnchored, AllComponents, Attained, Reach, IsComponent;
    LoopDone(g, open, s0, s, v, l);
    StayKeeps(g, open, s, |s0.stack|, v, l);
  }

  lemma LoopLow(g: Edges, open: set<Node>, s0: Progress, s: Progress, v: Node, l: nat)
    requires Looping(g, open, s0, s, v, l, {})
    ensures v in s.index && s.index[v] == s0.counter && l <= s0.counter
  {
    hide Invariant, BoundsExits, Attained, Reach;
  }

  lemma PushedIs(s: Progress, t: Progress, v: Node)
    requires t.index == s.index[v := s.counter] && t.stack == s.stack + [v]
    requires t.counter == s.counter + 1 && t.comps == s.comps
    ensures t == Pushed(s, v)
  {
  }

  class Search {
    const adj: Edges
    var index: map<Node, nat>
    var low: map<Node, nat>
    var onStack: set<Node>
    var stack: seq<Node>
    var out: seq<seq<Node>>
    var counter: nat
    ghost var comps: set<set<Node>>

    constructor (adj: Edges)
      ensures this.adj == adj && index == map[] && stack == [] && comps == {} && Valid({})
    {
      this.adj := adj;
      index, low, onStack, stack, out, counter, comps := map[], map[], {}, [], [], 0, {};
    }

    ghost function State(): Progress
      reads this
    {
      Progress(index, stack, counter, comps)
    }

    ghost predicate Valid(open: set<Node>)
      reads this
    {
      && Invariant(adj, open, State())
      && low.Keys == index.Keys && onStack == Members(stack) && Reported(out, comps)
    }

    /** Everything visited since `from` is reached from v. */
    ghost predicate NewFrom(from: Progress, v: Node)
      reads this
    {
      forall u :: u in index && u !in from.index ==> Reach(adj, v, u)
    }

    /** Between two turns of v's loop over its successors. */
    ghost predicate InLoop(open: set<Node>, s0: Progress, v: Node, pending: set<Node>)
      reads this
    {
      Valid(open + {v}) && v in low && Looping(adj, open, s0, State(), v, low[v], pending)
    }

    /** The nodes a search may visit: closed under edges. */
    ghost predicate Within(universe: set<Node>)
      reads this
    {
      index.Keys <= universe && forall x :: x in universe ==> Succ(adj, x) <= universe
    }

    /** One successor w of v: visited if it is new, else taken into low[v] if it is on the stack. */
    method Consider(v: Node, w: Node, ghost open: set<Node>, ghost universe: set<Node>, ghost s0: Progress,
                    ghost pending: set<Node>)
      requires InLoop(open, s0, v, pending) && w in Succ(adj, v) && w in universe && Within(universe)
      requires forall x :: x in open ==> Reach(adj, x, v)
      modifies this
      ensures InLoop(open, s0, v, pending - {w})
      ensures NewFrom(old(State()), v) && index.Keys <= universe
      ensures forall u :: u in old(low) ==> u in low && (u != v ==> low[u] == old(low[u]))
      decreases universe - index.Keys, 1
    {
      hide Numbered, Partitioned, EdgesDone, OpenReaches, StackAnchored, AllComponents, BoundsExits, Attained, Reach;
      hide Reported, Invariant, Looping, Continues, Returned, Members, Ascending, Succ, Pushed;
      ghost var s, l := State(), low[v];
      InMembers(stack, w);
      if w !in index {
        OpenReachesNext(adj, open, v, w);
        Visit(w, open + {v}, universe);
        ReachesThrough(adj, s.index.Keys, index.Keys, v, w);
        AfterVisit(adj, open, s0, s, State(), v, l, w, low[w], pending);
        if low[w] < low[v] {
          low := low[v := low[w]];
        }
      } else {
        AfterSeen(adj, open, s0, s, v, l, w, pending);
        if w in onStack && index[w] < low[v] {
          low := low[v := index[w]];
        }
      }
    }

    /** `stack.pop()` until v, which sits at position n, has been popped. */
    method PopDownTo(v: Node, ghost n: nat) returns (comp: seq<Node>)
      requires n < |stack| && stack[n] == v && Distinct(stack) && onStack == Members(stack)
      modifies this`stack, this`onStack
      ensures stack == old(stack)[..n] && onStack == Members(stack)
      ensures Members(comp) == Members(old(stack)[n..]) && |Members(comp)| == |comp|
    {
      hide Members, Distinct;
      ghost var st := stack;
      comp := [];
      var popped := false;
      assert st[..|st|] == st && st[|st|..] == [];
      MembersEmpty();
      while !popped
        invariant n <= |stack| <= |st| && stack == st[..|stack|] && (popped <==> |stack| == n)
        invariant onStack == Members(st[..|stack|]) && Members(comp) == Members(st[|stack|..])
        invariant |Members(comp)| == |comp|
        decreases |stack|
      {
        ghost var m := |stack|;
        var w := stack[|stack| - 1];
        PopLast(st, m);
        MembersPush(comp, w);
        SameAt(st, m - 1, n);
        stack, onStack, comp := stack[..|stack| - 1], onStack - {w}, comp + [w];
        assert st[..m][..m - 1] == st[..m - 1];
        popped := w == v;
      }
    }

    /** The end of `visit`: pops and reports v's component when low[v] == index[v]. */
    method Close(v: Node, ghost open: set<Node>, ghost s0: Progress)
      requires Invariant(adj, open, s0) && v !in s0.index
      requires InLoop(open, s0, v, {})
      modifies this`stack, this`onStack, this`out, this`comps
      ensures Valid(open) && Returned(adj, open, s0, State(), v, low[v])
    {
      hide Numbered, Partitioned, EdgesDone, OpenReaches, StackAnchored, AllComponents, BoundsExits, Attained, Reach;
      hide Reported, Invariant, Looping, Continues, Returned, Members, Ascending;
      LoopLow(adj, open, s0, State(), v, low[v]);
      if low[v] == index[v] {
        ReturnPopped(adj, open, s0, State(), v);
        var comp := PopDownTo(v, |s0.stack|);
        if |comp| > 1 {
          ReportOne(out, comps, Members(comp));
          out := out + [SortedSet(Members(comp))];
        } else {
          ReportNone(out, comps, Members(comp));
        }
        comps := comps + {Members(comp)};
      } else {
        ReturnStacked(adj, open, s0, State(), v, low[v]);
      }
    }

    method Visit(v: Node, ghost open: set<Node>, ghost universe: set<Node>)
      requires Valid(open) && v !in index && v in universe && Within(universe)
      requires forall x :: x in open ==> Reach(adj, x, v)
      modifies this
      ensures Valid(open) && v in low && Returned(adj, open, old(State()), State(), v, low[v])
      ensures NewFrom(old(State()), v) && index.Keys <= universe
      ensures forall u :: u in old(low) ==> u in low && low[u] == old(low[u])
      decreases universe - index.Keys, 0
    {
      hide Numbered, Partitioned, EdgesDone, OpenReaches, StackAnchored, AllComponents, BoundsExits, Attained, Reach;
      hide Reported, Invariant, Looping, Continues, Returned, Members, Ascending, Succ, Pushed, SortedSet;
      ghost var s0 := State();
      EnterLoop(adj, open, s0, v);
      ReachSelf(adj, v);
      MembersPush(stack, v);
      index, low, counter := index[v := counter], low[v := counter], counter + 1;
      stack, onStack := stack + [v], onStack + {v};
      PushedIs(s0, State(), v);
      var succs := SortedSet(Succ(adj, v));
      assert succs[0..] == succs;
      var k := 0;
      while k < |succs|
        invariant 0 <= k <= |succs|
        invariant InLoop(open, s0, v, Members(succs[k..]))
        invariant NewFrom(s0, v) && index.Keys <= universe
        invariant forall u :: u in s0.index ==> u in low && low[u] == old(low[u])
      {
        MembersTail(succs, k);
        Consider(v, succs[k], open, universe, s0, Members(succs[k..]));
        k := k + 1;
      }
      assert succs[k..] == [];
      MembersEmpty();
      Close(v, open, s0);
    }
  }

  lemma SameAt(s: seq<Node>, i: nat, j: nat)
    requires Distinct(s) && i < |s| && j < |s|
    ensures s[i] == s[j] <==> i == j
  {
  }

  /** Two components that share a node are the same. */
  lemma ComponentsEqual(g: Edges, c: set<Node>, d: set<Node>, v: Node)
    requires IsComponent(g, c) && IsComponent(g, d) && v in c && v in d
    ensures c == d
  {
    hide Reach;
  }

  lemma DoneStackEmpty(g: Edges, s: Progress)
    requires Invariant(g, {}, s)
    ensures s.stack == [] && s.index.Keys == Settled(s.comps)
  {
    hide EdgesDone, OpenReaches, AllComponents, Reach;
    if s.stack != [] {
      var x := AnchorOf(g, {}, s, s.stack[0]);
      assert false;
    }
  }

  /** v is reached from one of `nodes`. */
  ghost predicate ReachedFrom(g: Edges, nodes: set<Node>, v: Node) {
    exists n :: n in nodes && Reach(g, n, v)
  }

  lemma PoppedReached(g: Edges, s: Progress, nodes: set<Node>, c: set<Node>, v: Node)
    requires Invariant(g, {}, s) && nodes <= s.index.Keys
    requires IsComponent(g, c) && v in c && ReachedFrom(g, nodes, v)
    ensures c in s.comps
  {
    hide Reach, OpenReaches, StackAnchored, Numbered, Partitioned, IsComponent;
    DoneStackEmpty(g, s);
    var n :| n in nodes && Reach(g, n, v);
    ClosedHoldsReach(g, Settled(s.comps), n, v);
    var d :| d in s.comps && v in d;
    ComponentsEqual(g, c, d, v);
  }

  /** c is a list to report: the members, ascending, of a component with more than one module. */
  ghost predicate IsCycle(g: Edges, nodes: set<Node>, c: seq<Node>) {
    Ascending(c) && |c| > 1 && IsComponent(g, Members(c)) && ReachedFrom(g, nodes, c[0])
  }

  /** When no call is open, the lists reported are the cycles `nodes` lead to. */
  lemma ReportedAreCycles(g: Edges, s: Progress, nodes: set<Node>, out: seq<seq<Node>>, c: seq<Node>)
    requires Invariant(g, {}, s) && nodes <= s.index.Keys && Reported(out, s.comps)
    requires forall v :: v in s.index ==> ReachedFrom(g, nodes, v)
    ensures c in out <==> IsCycle(g, nodes, c)
  {
    hide Reach, Invariant, ReachedFrom, IsComponent;
    if c in out {
      AllReached(g, s, nodes, c);
    }
    if IsCycle(g, nodes, c) {
      assert c[0] in Members(c);
      PoppedReached(g, s, nodes, Members(c), c[0]);
      AscendingSize(c);
      AscendingUnique(c, SortedSet(Members(c)));
    }
  }

  lemma AllReached(g: Edges, s: Progress, nodes: set<Node>, c: seq<Node>)
    requires Invariant(g, {}, s) && c != [] && Members(c) in s.comps
    requires forall v :: v in s.index ==> ReachedFrom(g, nodes, v)
    ensures IsComponent(g, Members(c)) && ReachedFrom(g, nodes, c[0])
  {
    hide Reach, ReachedFrom, IsComponent;
    DoneStackEmpty(g, s);
    assert c[0] in Members(c);
    assert c[0] in Settled(s.comps);
  }

  lemma SortedCycles(g: Edges, s: Progress, nodes: set<Node>, out: seq<seq<Node>>)
    requires Invariant(g, {}, s) && nodes <= s.index.Keys && Reported(out, s.comps)
    requires forall v :: v in s.index ==> ReachedFrom(g, nodes, v)
    ensures LexSorted(SortLex(out)) && Distinct(SortLex(out))
    ensures forall c :: c in SortLex(out) <==> IsCycle(g, nodes, c)
  {
    hide Reach, Invariant, ReachedFrom, IsCycle;
    SortLexSorted(out);
    SortLexKeeps(out);
    forall c ensures c in SortLex(out) <==> IsCycle(g, nodes, c) {
      ReportedAreCycles(g, s, nodes, out, c);
    }
  }

  lemma ReachedGrows(g: Edges, nodes: set<Node>, n: Node, before: set<Node>, after: set<Node>)
    requires n in nodes && forall u :: u in after && u !in before ==> Reach(g, n, u)
    requires forall u :: u in before ==> ReachedFrom(g, nodes, u)
    ensures forall u :: u in after ==> ReachedFrom(g, nodes, u)
  {
    hide Reach;
  }

  /** Every node an edge can lead to. */
  ghost function Universe(nodes: set<Node>, g: Edges): set<Node> {
    nodes + set v, w | v in g && w in g[v] :: w
  }

  /** The components with more than one module, each once, sorted. */
  method StronglyConnected(nodes: set<Node>, adj: Edges) returns (cycles: seq<seq<Node>>)
    ensures LexSorted(cycles) && Distinct(cycles)
    ensures forall c :: c in cycles <==> IsCycle(adj, nodes, c)
  {
    hide Invariant, Reported, Reach, ReachedFrom, IsCycle, Returned, Ascending, LexSorted, Distinct, Members;
    var search := new Search(adj);
    var order := SortedSet(nodes);
    ghost var universe := Universe(nodes, adj);
    var k := 0;
    MembersEmpty();
    while k < |order|
      invariant 0 <= k <= |order| && search.adj == adj && search.Valid({})
      invariant Members(order[..k]) <= search.index.Keys
      invariant search.index.Keys <= universe
      invariant forall v :: v in search.index ==> ReachedFrom(adj, nodes, v)
    {
      var v := order[k];
      InMembers(order, v);
      assert order[..k + 1] == order[..k] + [v];
      MembersPush(order[..k], v);
      if v !in search.index {
        ghost var before := search.index.Keys;
        search.Visit(v, {}, universe);
        ReachedGrows(adj, nodes, v, before, search.index.Keys);
      }
      k := k + 1;
    }
    assert order[..k] == order;
    SortedCycles(adj, search.State(), nodes, search.out);
    cycles := SortLex(search.out);
  }
}
