/** The layering check of tools/check_layers.py: the scan of the tree (`collect`), the examples (`check_examples`)
    and the verdict (`run`). An include is the name of the module its quoted path ends in. */
module CheckLayers {
  import opened Graph
  import opened Order
  import opened Layers
  import opened Allowlist
  import Tarjan

  /** Directly in src or among the public headers, or below a directory of src at a path there. */
  datatype Place = Flat | Below(dir: nat, path: nat)

  datatype Source = Source(name: Node, place: Place, includes: seq<Node>)

  /** The example of a layer, which its file name gives. */
  datatype Example = Example(layer: nat, includes: seq<Node>)

  /** tools/layout.py: the layer of a module, and by layer its directory and the paths of its files there. */
  datatype Layout = Layout(layerOf: Layering, dirs: seq<nat>, paths: seq<set<nat>>)

  ghost predicate LayoutOk(l: Layout) {
    |l.paths| == |l.dirs| && forall m :: m in l.layerOf ==> l.layerOf[m] < |l.dirs|
  }

  // ---- collect -------------------------------------------------------------------------------------

  /** The layout has no place for the file where it is. */
  predicate Misplaced(l: Layout, f: Source)
    requires LayoutOk(l)
  {
    f.name !in l.layerOf
    || (f.place.Below? && (f.place.dir != l.dirs[l.layerOf[f.name]] || f.place.path !in l.paths[l.layerOf[f.name]]))
  }

  /** The includes of a module that are edges, in order. */
  function EdgesOf(layerOf: Layering, name: Node, includes: seq<Node>): seq<Include> {
    if includes == [] then []
    else
      var n := |includes| - 1;
      EdgesOf(layerOf, name, includes[..n])
      + if includes[n] == name || includes[n] !in layerOf then [] else [Include(name, includes[n])]
  }

  function EdgesIn(layerOf: Layering, files: seq<Source>): seq<Include> {
    if files == [] then []
    else
      var n := |files| - 1;
      EdgesIn(layerOf, files[..n])
      + if files[n].name in layerOf then EdgesOf(layerOf, files[n].name, files[n].includes) else []
  }

  function ModulesIn(layerOf: Layering, files: seq<Source>): set<Node> {
    set f | f in files && f.name in layerOf :: f.name
  }

  /** A scanned file of module a includes module b; both have a layer, and they are two. */
  ghost predicate IncludedFrom(layerOf: Layering, files: seq<Source>, a: Node, b: Node) {
    a in layerOf && b in layerOf && a != b && exists f :: f in files && f.name == a && b in f.includes
  }

  lemma {:induction false} EdgesOfAre(layerOf: Layering, name: Node, includes: seq<Node>, a: Node, b: Node)
    ensures HasEdge(EdgesOf(layerOf, name, includes), a, b) <==>
            a == name && b != name && b in layerOf && b in includes
    decreases |includes|
  {
    if includes != [] {
      var n := |includes| - 1;
      EdgesOfAre(layerOf, name, includes[..n], a, b);
      assert includes == includes[..n] + [includes[n]];
    }
  }

  /** The edges are exactly the includes between two modules of the layout. */
  lemma {:induction false} EdgesAre(layerOf: Layering, files: seq<Source>, a: Node, b: Node)
    ensures HasEdge(EdgesIn(layerOf, files), a, b) <==> IncludedFrom(layerOf, files, a, b)
    decreases |files|
  {
    hide EdgesOf;
    if files != [] {
      var n := |files| - 1;
      var rest, f := files[..n], files[n];
      EdgesAre(layerOf, rest, a, b);
      EdgesOfAre(layerOf, f.name, f.includes, a, b);
      assert files == rest + [f];
      assert forall g :: g in files <==> g in rest || g == f;
    }
  }

  lemma EdgesKnown(layerOf: Layering, files: seq<Source>)
    ensures Known(EdgesIn(layerOf, files), layerOf)
  {
    hide EdgesIn;
    forall e | e in EdgesIn(layerOf, files) ensures e.includer in layerOf && e.included in layerOf {
      EdgesAre(layerOf, files, e.includer, e.included);
      assert HasEdge(EdgesIn(layerOf, files), e.includer, e.included);
    }
  }

  function MisplacedAt(l: Layout, files: seq<Source>): set<nat>
    requires LayoutOk(l)
  {
    set i: nat | i < |files| && Misplaced(l, files[i])
  }

  method Collect(l: Layout, files: seq<Source>) returns (errors: seq<nat>, modules: set<Node>, edges: seq<Include>)
    requires LayoutOk(l)
    ensures Ascending(errors) && Members(errors) == MisplacedAt(l, files)
    ensures modules == ModulesIn(l.layerOf, files) && edges == EdgesIn(l.layerOf, files)
  {
    hide EdgesOf, Ascending;
    errors, modules, edges := [], {}, [];
    AscendingNone();
    for i := 0 to |files|
      invariant Ascending(errors) && Members(errors) == MisplacedAt(l, files[..i])
      invariant modules == ModulesIn(l.layerOf, files[..i]) && edges == EdgesIn(l.layerOf, files[..i])
    {
      var f := files[i];
      ghost var rest := files[..i];
      assert files[..i + 1] == rest + [f];
      MisplacedPush(l, rest, f);
      ModulesPush(l.layerOf, rest, f);
      EdgesPush(l.layerOf, rest, f);
      AscendingNext(errors, i);
      MembersPush(errors, i);
      if f.name !in l.layerOf {
        errors := errors + [i];
        continue;
      }
      var layer := l.layerOf[f.name];
      modules := modules + {f.name};
      if f.place.Below? {
        if f.place.dir != l.dirs[layer] {
          errors := errors + [i];
        } else if f.place.path !in l.paths[layer] {
          errors := errors + [i];
        }
      }
      var found := FileEdges(l.layerOf, f);
      edges := edges + found;
    }
    assert files[..|files|] == files;
  }

  /** The includes of one file. */
  method FileEdges(layerOf: Layering, f: Source) returns (edges: seq<Include>)
    ensures edges == EdgesOf(layerOf, f.name, f.includes)
  {
    edges := [];
    for k := 0 to |f.includes|
      invariant edges == EdgesOf(layerOf, f.name, f.includes[..k])
    {
      var target := f.includes[k];
      assert f.includes[..k + 1][..k] == f.includes[..k];
      if target == f.name || target !in layerOf {
        continue;
      }
      edges := edges + [Include(f.name, target)];
    }
    assert f.includes[..|f.includes|] == f.includes;
  }

  lemma MisplacedPush(l: Layout, files: seq<Source>, f: Source)
    requires LayoutOk(l)
    ensures MisplacedAt(l, files + [f]) == MisplacedAt(l, files) + if Misplaced(l, f) then {|files|} else {}
    ensures forall i :: i in MisplacedAt(l, files) ==> i < |files|
  {
    hide Misplaced;
    var more := files + [f];
    assert forall i :: 0 <= i < |files| ==> more[i] == files[i];
  }

  lemma ModulesPush(layerOf: Layering, files: seq<Source>, f: Source)
    ensures ModulesIn(layerOf, files + [f]) == ModulesIn(layerOf, files) + if f.name in layerOf then {f.name} else {}
  {
    forall m ensures m in ModulesIn(layerOf, files + [f])
                 <==> m in ModulesIn(layerOf, files) || (f.name in layerOf && m == f.name)
    {
      assert f in files + [f] && forall g :: g in files ==> g in files + [f];
    }
  }

  lemma EdgesPush(layerOf: Layering, files: seq<Source>, f: Source)
    ensures EdgesIn(layerOf, files + [f])
         == EdgesIn(layerOf, files) + if f.name in layerOf then EdgesOf(layerOf, f.name, f.includes) else []
  {
    hide EdgesOf;
    assert (files + [f])[..|files|] == files;
  }

  // ---- examples ------------------------------------------------------------------------------------

  /** An include of a module above the example's layer. */
  predicate ReachesUp(layerOf: Layering, e: Example, k: nat)
    requires k < |e.includes|
  {
    e.includes[k] in layerOf && layerOf[e.includes[k]] > e.layer
  }

  ghost predicate NamesNoLayer(l: Layout, examples: seq<Example>, i: nat)
    requires i < |examples|
  {
    examples[i].layer >= |l.dirs|
  }

  /** Include k of example i is a violation: the example names a layer, and reaches above it. */
  ghost predicate ExampleViolation(l: Layout, examples: seq<Example>, i: nat, k: nat) {
    i < |examples| && k < |examples[i].includes| && examples[i].layer < |l.dirs| && ReachesUp(l.layerOf, examples[i], k)
  }

  /** `check_examples`: the examples that are named for no layer, and the includes that are violations. */
  method CheckExamples(l: Layout, examples: seq<Example>) returns (errors: seq<nat>, violations: seq<(nat, nat)>)
    ensures Ascending(errors)
    ensures forall i :: i in errors <==> 0 <= i < |examples| && NamesNoLayer(l, examples, i)
    ensures forall i: nat, k: nat :: (i, k) in violations <==> ExampleViolation(l, examples, i, k)
  {
    errors, violations := [], [];
    for i := 0 to |examples|
      invariant Ascending(errors)
      invariant forall j :: j in errors <==> 0 <= j < i && NamesNoLayer(l, examples, j)
      invariant forall j: nat, k: nat :: (j, k) in violations <==> j < i && ExampleViolation(l, examples, j, k)
    {
      var e := examples[i];
      if e.layer >= |l.dirs| {
        AscendingNext(errors, i);
        errors := errors + [i];
        continue;
      }
      for k := 0 to |e.includes|
        invariant forall j: nat, m: nat :: (j, m) in violations <==>
                    (j < i && ExampleViolation(l, examples, j, m)) || (j == i && m < k && ReachesUp(l.layerOf, e, m))
      {
        if ReachesUp(l.layerOf, e, k) {
          violations := violations + [(i, k)];
        }
      }
    }
  }

  // ---- the verdict ---------------------------------------------------------------------------------

  /** The violating pairs by name. */
  function NamedPairs(layerOf: Layering, files: seq<Source>, name: Node -> string): set<Pair> {
    EdgesKnown(layerOf, files);
    set p | p in ViolatingPairs(EdgesIn(layerOf, files), layerOf) :: (name(p.0), name(p.1))
  }

  /** A file out of place, an example named for no layer, or an example that reaches up. */
  ghost predicate TreeErrors(l: Layout, files: seq<Source>, examples: seq<Example>)
    requires LayoutOk(l)
  {
    || (exists f :: f in files && Misplaced(l, f))
    || (exists e :: e in examples && e.layer >= |l.dirs|)
    || (exists i, k :: ExampleViolation(l, examples, i, k))
  }

  /** What the check fails on: the tree's errors, a malformed line of the list, a violation that is not on it, or an
      entry of it that is no violation (writing the list makes it the violations). */
  ghost predicate Fails(l: Layout, files: seq<Source>, examples: seq<Example>, allow: seq<string>, write: bool,
                        name: Node -> string)
    requires LayoutOk(l)
  {
    || TreeErrors(l, files, examples)
    || (exists line :: line in allow && ReadLine(line).Malformed?)
    || (!write && EntriesOf(allow) != NamedPairs(l.layerOf, files, name))
  }

  lemma SomeMisplaced(l: Layout, files: seq<Source>, errors: seq<nat>)
    requires LayoutOk(l) && Members(errors) == MisplacedAt(l, files)
    ensures errors != [] <==> exists f :: f in files && Misplaced(l, f)
  {
    hide Misplaced;
    if errors != [] {
      assert errors[0] in MisplacedAt(l, files);
    }
    if f :| f in files && Misplaced(l, f) {
      var i: nat :| i < |files| && files[i] == f;
      assert i in MisplacedAt(l, files);
    }
  }

  lemma SomeMalformed(lines: seq<string>, errors: seq<nat>)
    requires Members(errors) == MalformedAt(lines)
    ensures errors != [] <==> exists l :: l in lines && ReadLine(l).Malformed?
  {
    hide ReadLine;
    if errors != [] {
      assert errors[0] in MalformedAt(lines);
    }
    if l :| l in lines && ReadLine(l).Malformed? {
      var i: nat :| i < |lines| && lines[i] == l;
      assert i in MalformedAt(lines);
    }
  }

  lemma SomeExample(l: Layout, examples: seq<Example>, errors: seq<nat>, violations: seq<(nat, nat)>)
    requires forall i :: i in errors <==> 0 <= i < |examples| && NamesNoLayer(l, examples, i)
    requires forall i: nat, k: nat :: (i, k) in violations <==> ExampleViolation(l, examples, i, k)
    ensures errors != [] <==> exists e :: e in examples && e.layer >= |l.dirs|
    ensures violations != [] <==> exists i, k :: ExampleViolation(l, examples, i, k)
  {
    hide ExampleViolation;
    if errors != [] {
      assert errors[0] in errors;
      assert examples[errors[0]] in examples;
    }
    if e :| e in examples && e.layer >= |l.dirs| {
      var i: nat :| i < |examples| && examples[i] == e;
      assert NamesNoLayer(l, examples, i);
      assert i in errors;
    }
    if violations != [] {
      var v := violations[0];
      assert (v.0, v.1) in violations;
    }
  }

  lemma NoneNamed(layerOf: Layering, files: seq<Source>, name: Node -> string)
    requires Known(EdgesIn(layerOf, files), layerOf)
    ensures NamedPairs(layerOf, files, name) == {} <==> ViolatingPairs(EdgesIn(layerOf, files), layerOf) == {}
  {
    hide EdgesIn, ViolatingPairs;
    var pairs := ViolatingPairs(EdgesIn(layerOf, files), layerOf);
    if pairs != {} {
      var p :| p in pairs;
      assert (name(p.0), name(p.1)) in NamedPairs(layerOf, files, name);
    }
  }

  /** `run`: the verdict, and the cycles it reports. */
  method Run(l: Layout, files: seq<Source>, examples: seq<Example>, allow: seq<string>, write: bool,
             name: Node -> string)
    returns (failed: bool, cycles: seq<seq<Node>>, ghost adj: Edges)
    requires LayoutOk(l)
    ensures failed <==> Fails(l, files, examples, allow, write, name)
    ensures forall a, b :: b in Succ(adj, a) <==> IncludedFrom(l.layerOf, files, a, b)
    ensures LexSorted(cycles) && Distinct(cycles)
    ensures forall c :: c in cycles <==> Ascending(c) && |c| > 1 && IsComponent(adj, Members(c))
    ensures NamedPairs(l.layerOf, files, name) == {} ==> forall c :: c in cycles ==> InOneLayer(l.layerOf, c)
  {
    hide Reach, IsComponent, InOneLayer, Ascending, LexSorted, Distinct, ReadLine, EntriesOf, EdgesIn, Misplaced,
         MisplacedAt, MalformedAt, NamedPairs, ViolatingPairs, ExampleViolation, Succ, IncludedFrom;
    var errors, modules, edges := Collect(l, files);
    EdgesKnown(l.layerOf, files);
    var exampleErrors, violations := CheckExamples(l, examples);
    var entries, allowErrors := ReadAllowlist(allow);
    SomeMisplaced(l, files, errors);
    SomeExample(l, examples, exampleErrors, violations);
    SomeMalformed(allow, allowErrors);
    var pairs := NamedPairs(l.layerOf, files, name);
    var allowed := if write then pairs else entries;
    var unlisted, stale := pairs - allowed, allowed - pairs;
    failed := errors != [] || exampleErrors != [] || allowErrors != [] || violations != []
              || unlisted != {} || stale != {};
    var graph;
    cycles, graph := Cycles(edges, l.layerOf, modules);
    adj := graph;
    forall a, b ensures b in Succ(adj, a) <==> IncludedFrom(l.layerOf, files, a, b) {
      EdgesAre(l.layerOf, files, a, b);
    }
    NoneNamed(l.layerOf, files, name);
  }

  /** The include graph of the edges and its cycles. */
  method Cycles(edges: seq<Include>, layerOf: Layering, modules: set<Node>)
    returns (cycles: seq<seq<Node>>, adj: Edges)
    requires Known(edges, layerOf)
    ensures AdjacencyOf(edges, adj) && LexSorted(cycles) && Distinct(cycles)
    ensures forall c :: c in cycles <==> Ascending(c) && |c| > 1 && IsComponent(adj, Members(c))
    ensures ViolatingPairs(edges, layerOf) == {} ==> forall c :: c in cycles ==> InOneLayer(layerOf, c)
  {
    hide Reach, IsComponent, Tarjan.IsCycle, AdjacencyOf, InOneLayer, Ascending, LexSorted, Distinct;
    adj := BuildAdjacency(edges);
    var nodes := modules + set e | e in edges :: e.included;
    cycles := Tarjan.StronglyConnected(nodes, adj);
    forall c ensures c in cycles <==> Ascending(c) && |c| > 1 && IsComponent(adj, Members(c)) {
      CyclesMet(edges, adj, nodes, c);
    }
    if ViolatingPairs(edges, layerOf) == {} {
      forall c | c in cycles ensures InOneLayer(layerOf, c) { CleanCycles(edges, layerOf, adj, c); }
    }
  }

  /** After the list is written the check passes, on a tree without other errors, exactly when no name of a
      violating module has a blank or a number sign in it. */
  lemma WriteThenClean(l: Layout, files: seq<Source>, examples: seq<Example>, name: Node -> string,
                       pairs: seq<Pair>, layerName: string -> string)
    requires LayoutOk(l) && !TreeErrors(l, files, examples)
    requires (set p | p in pairs) == NamedPairs(l.layerOf, files, name)
    ensures Fails(l, files, examples, Written(pairs, layerName), false, name)
       <==> !AllPlain(NamedPairs(l.layerOf, files, name))
  {
    hide TreeErrors, NamedPairs, EntriesOf, Written, ReadLine, AllPlain;
    WrittenBack(pairs, layerName);
  }
}
