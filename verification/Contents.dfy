/** What the rows hold, through compactions: an address resolved by src/table/frag_reuse.cpp names a row with the same
    content. */
module Contents {
  import opened Options
  import opened Search
  import opened FragReuse

  /** The content of every row of every fragment the table ever had. */
  type Data<V> = map<nat, seq<V>>

  ghost predicate Fits<V>(t: Table, d: Data<V>) {
    d.Keys == t.ever.Keys && forall id :: id in d ==> |d[id]| == t.ever[id]
  }

  /** Sequences end to end. */
  function Joined<V>(ss: seq<seq<V>>): seq<V> {
    if ss == [] then [] else Joined(ss[..|ss| - 1]) + ss[|ss| - 1]
  }

  predicate Within(kept: seq<nat>, n: nat) {
    forall p :: 0 <= p < |kept| ==> kept[p] < n
  }

  /** The rows a compaction kept of a fragment. */
  function Picked<V>(rows: seq<V>, kept: seq<nat>): (r: seq<V>)
    requires Within(kept, |rows|)
    ensures |r| == |kept| && forall p :: 0 <= p < |r| ==> r[p] == rows[kept[p]]
  {
    seq(|kept|, p requires 0 <= p < |kept| => rows[kept[p]])
  }

  /** What a group's old fragments leave, in the order the group lists them. */
  ghost function Left<V>(g: Group, frags: map<nat, OldFragment>, d: Data<V>): (r: seq<seq<V>>)
    requires forall id :: id in g.oldIds ==> id in frags && id in d && Within(frags[id].kept, |d[id]|)
    ensures |r| == |g.oldIds|
    ensures forall i :: 0 <= i < |r| ==> r[i] == Picked(d[g.oldIds[i]], frags[g.oldIds[i]].kept)
  {
    seq(|g.oldIds|, i requires 0 <= i < |g.oldIds| => Picked(d[g.oldIds[i]], frags[g.oldIds[i]].kept))
  }

  /** What a group's new fragments hold, in the order of its ranges. */
  ghost function Written<V>(g: Group, d: Data<V>): (r: seq<seq<V>>)
    requires forall i :: 0 <= i < |g.newRanges| ==> g.newRanges[i].fragment in d
    ensures |r| == |g.newRanges| && forall i :: 0 <= i < |r| ==> r[i] == d[g.newRanges[i].fragment]
  {
    seq(|g.newRanges|, i requires 0 <= i < |g.newRanges| => d[g.newRanges[i].fragment])
  }

  /** A compaction copies: the new fragments of a group, end to end, hold what its old ones leave, end to end. */
  ghost predicate Copies<V>(g: Group, frags: map<nat, OldFragment>, d: Data<V>, d': Data<V>) {
    && (forall id :: id in g.oldIds ==> id in frags && id in d && Within(frags[id].kept, |d[id]|))
    && (forall i :: 0 <= i < |g.newRanges| ==> g.newRanges[i].fragment in d')
    && Joined(Written(g, d')) == Joined(Left(g, frags, d))
  }

  /** One compaction, with what the rows hold; a fragment that is there keeps its rows. */
  ghost predicate CopiesAll<V>(s: Step, t: Table, d: Data<V>, t': Table, d': Data<V>) {
    && Compacts(s, t, t') && Fits(t, d) && Fits(t', d')
    && (forall gi :: 0 <= gi < |s.groups| ==> Copies(s.groups[gi], s.frags, d, d'))
    && (forall id :: id in d ==> id in d' && d'[id] == d[id])
  }

  ghost predicate Holds<V>(d: Data<V>, r: Row, v: V) {
    r.frag in d && r.off < |d[r.frag]| && d[r.frag][r.off] == v
  }

  function Lens<V>(ss: seq<seq<V>>): (l: seq<nat>)
    ensures |l| == |ss| && forall i :: 0 <= i < |l| ==> l[i] == |ss[i]|
  {
    seq(|ss|, i requires 0 <= i < |ss| => |ss[i]|)
  }

  lemma {:induction false} JoinedAt<V>(ss: seq<seq<V>>, i: nat, p: nat)
    requires i < |ss| && p < |ss[i]|
    ensures Start(Lens(ss), i) + p < |Joined(ss)| == Sum(Lens(ss))
    ensures Joined(ss)[Start(Lens(ss), i) + p] == ss[i][p]
    decreases |ss|
  {
    var n := |ss| - 1;
    assert Lens(ss)[..n] == Lens(ss[..n]);
    JoinedLength(ss[..n]);
    if i < n {
      JoinedAt(ss[..n], i, p);
      assert Lens(ss)[..i] == Lens(ss[..n])[..i];
    }
  }

  lemma {:induction false} JoinedLength<V>(ss: seq<seq<V>>)
    ensures |Joined(ss)| == Sum(Lens(ss))
    decreases |ss|
  {
    if ss != [] {
      JoinedLength(ss[..|ss| - 1]);
      assert Lens(ss)[..|ss| - 1] == Lens(ss[..|ss| - 1]);
    }
  }

  // ---- one compaction ------------------------------------------------------------------------------

  /** A surviving row is the p-th that was kept of the i-th fragment of its group. */
  lemma PlaceOf(s: Step, r: Row) returns (i: nat, p: nat)
    requires StepOk(s) && Survives(s, r)
    ensures var g := s.groups[s.frags[r.frag].group];
            && i < |g.oldIds| && g.oldIds[i] == r.frag && p < |s.frags[r.frag].kept|
            && s.frags[r.frag].kept[p] == r.off
            && GroupOk(g, s.frags[r.frag].group, s.frags)
            && IndexOf(s, r) == Start(KeptLens(g, s.frags), i) + p
  {
    hide LowerBound, Start, KeptLens;
    var of := s.frags[r.frag];
    GroupOf(s, r.frag);
    LowerBoundFinds(of.kept, r.off);
    assert KeptOk(of.kept, of.physical);
    p := LowerBound(of.kept, r.off);
    i :| 0 <= i < |s.groups[of.group].oldIds| && s.groups[of.group].oldIds[i] == r.frag;
  }

  /** Both sides of a copy, by place. */
  lemma CopiedPlace<V>(g: Group, frags: map<nat, OldFragment>, d: Data<V>, d': Data<V>, i: nat, p: nat, j: nat, q: nat)
    requires Copies(g, frags, d, d') && i < |g.oldIds| && p < |Left(g, frags, d)[i]|
    requires j < |g.newRanges| && q < |Written(g, d')[j]|
    requires Start(Lens(Left(g, frags, d)), i) + p == Start(Lens(Written(g, d')), j) + q
    ensures Written(g, d')[j][q] == Left(g, frags, d)[i][p]
  {
    hide Start, Joined, Sum;
    JoinedAt(Left(g, frags, d), i, p);
    JoinedAt(Written(g, d'), j, q);
  }

  /** A row that a compaction keeps holds what it held, where it is now. */
  lemma MoveKeeps<V>(s: Step, t: Table, d: Data<V>, t': Table, d': Data<V>, r: Row, v: V)
    requires CopiesAll(s, t, d, t', d') && Holds(d, r, v) && Move(s, r).At?
    ensures Holds(d', Move(s, r).row, v)
  {
    hide Move, StepOk, GroupOk, Joined, GroupWritten, Start, IndexOf;
    assert WasRow(t, r);
    if Survives(s, r) {
      var i, p := PlaceOf(s, r);
      var j := MoveTarget(s, r);
      GroupOf(s, r.frag);
      var gi := s.frags[r.frag].group;
      var g := s.groups[gi];
      WrittenFits(s, t, d, t', d', gi);
      CopiedPlace(g, s.frags, d, d', i, p, j, IndexOf(s, r) - Start(NewLens(g), j));
    } else {
      MoveUnmoved(s, t, t', r);
    }
  }

  lemma WrittenFits<V>(s: Step, t: Table, d: Data<V>, t': Table, d': Data<V>, gi: nat)
    requires CopiesAll(s, t, d, t', d') && gi < |s.groups|
    ensures Copies(s.groups[gi], s.frags, d, d') && Lens(Written(s.groups[gi], d')) == NewLens(s.groups[gi])
    ensures Lens(Left(s.groups[gi], s.frags, d)) == KeptLens(s.groups[gi], s.frags)
  {
    hide StepOk, Joined;
    assert GroupWritten(s.groups[gi], t, t');
  }

  // ---- any number of compactions -------------------------------------------------------------------

  ghost predicate Kept<V>(tables: seq<Table>, datas: seq<Data<V>>, steps: seq<Step>)
    ensures Kept(tables, datas, steps) ==> History(tables, steps)
  {
    |tables| == |datas| == |steps| + 1
    && forall k :: 0 <= k < |steps| ==> CopiesAll(steps[k], tables[k], datas[k], tables[k + 1], datas[k + 1])
  }

  /** A resolved row holds what the row held that was asked for. */
  lemma {:induction false} ResolvedKeeps<V>(tables: seq<Table>, datas: seq<Data<V>>, steps: seq<Step>, r: Row, v: V)
    requires Kept(tables, datas, steps) && Holds(datas[0], r, v) && Resolved(steps, r).At?
    ensures Holds(datas[|steps|], Resolved(steps, r).row, v)
    decreases |steps|
  {
    hide Move, CopiesAll, History;
    if steps != [] {
      var n := |steps| - 1;
      KeptPrefix(tables, datas, steps);
      ResolvedKeeps(tables[..n + 1], datas[..n + 1], steps[..n], r, v);
      MoveKeeps(steps[n], tables[n], datas[n], tables[n + 1], datas[n + 1], Resolved(steps[..n], r).row, v);
    }
  }

  lemma KeptPrefix<V>(tables: seq<Table>, datas: seq<Data<V>>, steps: seq<Step>)
    requires Kept(tables, datas, steps) && steps != []
    ensures Kept(tables[..|steps|], datas[..|steps|], steps[..|steps| - 1])
    ensures var n := |steps| - 1; CopiesAll(steps[n], tables[n], datas[n], tables[n + 1], datas[n + 1])
  {
    hide CopiesAll;
    var n := |steps| - 1;
    forall k | 0 <= k < n
      ensures CopiesAll(steps[..n][k], tables[..n + 1][k], datas[..n + 1][k], tables[..n + 1][k + 1],
                        datas[..n + 1][k + 1])
    {
      assert CopiesAll(steps[k], tables[k], datas[k], tables[k + 1], datas[k + 1]);
    }
  }

  /** So for addresses, while the new fragments fit 32 bits. */
  lemma AddressHolds<V>(tables: seq<Table>, datas: seq<Data<V>>, steps: seq<Step>, address: nat, v: V)
    requires Kept(tables, datas, steps) && (forall s :: s in steps ==> Narrow(s))
    requires Holds(datas[0], RowOf(address), v) && ResolvedAddress(steps, address).Some?
    ensures Holds(datas[|steps|], RowOf(ResolvedAddress(steps, address).value), v)
  {
    hide Kept, Holds, Resolved, ResolvedAddress, Narrow;
    ResolvesRows(steps, address);
    ResolvedKeeps(tables, datas, steps, RowOf(address), v);
    RowOfAddress(Resolved(steps, RowOf(address)).row);
  }

  /** And every live row of a fragment that a remapped coverage claims holds what some row the index was built over
      held, and is where that row is now. */
  lemma CoverageKeeps<V>(tables: seq<Table>, datas: seq<Data<V>>, steps: seq<Step>, covered: set<nat>, r: Row, v: V)
    returns (from: Row)
    requires Kept(tables, datas, steps) && Fits(tables[0], datas[0]) && covered <= tables[0].ever.Keys
    requires r.frag in RemapAll(covered, steps) && IsRow(tables[|steps|], r) && Holds(datas[|steps|], r, v)
    ensures IsRow(tables[0], from) && from.frag in covered && Resolved(steps, from) == At(r) && Holds(datas[0], from, v)
  {
    hide CopiesAll, Resolved, RemapAll;
    from := CoverageSound(tables, steps, covered, r);
    ResolvedKeeps(tables, datas, steps, from, datas[0][from.frag][from.off]);
  }
}
