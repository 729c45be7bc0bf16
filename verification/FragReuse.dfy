/** The fragment-reuse index of src/table/frag_reuse.cpp: how a row address taken before some compactions is
    mapped to where the row is now (`build_step`, `resolve`), and how an index's fragment coverage follows
    (`remap_coverage`). */
module FragReuse {
  import opened Order
  import opened Search
  import opened Options

  const U32 := 0x1_0000_0000

  datatype NewRange = NewRange(fragment: nat, rowsBefore: nat, physical: nat)
  datatype Group = Group(newRanges: seq<NewRange>, oldIds: seq<nat>, newIds: seq<nat>)
  datatype OldFragment = OldFragment(group: nat, rowsBefore: nat, physical: nat, kept: seq<nat>)
  datatype Step = Step(groups: seq<Group>, frags: map<nat, OldFragment>)

  datatype Row = Row(frag: nat, off: nat)

  function AddressOf(r: Row): nat {
    r.frag * U32 + r.off
  }

  function RowOf(address: nat): Row {
    Row(address / U32, address % U32)
  }

  // ---- well-formed steps ---------------------------------------------------------------------------

  /** How many rows of each old fragment of a group survived, in the order the group lists them. */
  function KeptLens(g: Group, frags: map<nat, OldFragment>): (l: seq<nat>)
    requires forall id :: id in g.oldIds ==> id in frags
    ensures |l| == |g.oldIds| && forall i :: 0 <= i < |l| ==> l[i] == |frags[g.oldIds[i]].kept|
  {
    seq(|g.oldIds|, i requires 0 <= i < |g.oldIds| => |frags[g.oldIds[i]].kept|)
  }

  function NewLens(g: Group): (l: seq<nat>)
    ensures |l| == |g.newRanges| && forall i :: 0 <= i < |l| ==> l[i] == g.newRanges[i].physical
  {
    seq(|g.newRanges|, i requires 0 <= i < |g.newRanges| => g.newRanges[i].physical)
  }

  function NewStarts(g: Group): (l: seq<nat>)
    ensures |l| == |g.newRanges| && forall i :: 0 <= i < |l| ==> l[i] == g.newRanges[i].rowsBefore
  {
    seq(|g.newRanges|, i requires 0 <= i < |g.newRanges| => g.newRanges[i].rowsBefore)
  }

  /** The surviving rows of a group, counted through its old fragments, fill its new fragments exactly. */
  ghost predicate GroupOk(g: Group, gi: nat, frags: map<nat, OldFragment>) {
    && Distinct(g.oldIds)
    && (forall id :: id in g.oldIds ==> id in frags && frags[id].group == gi)
    && (forall i :: 0 <= i < |g.oldIds| ==> frags[g.oldIds[i]].rowsBefore == Start(KeptLens(g, frags), i))
    && (forall i :: 0 <= i < |g.newRanges| ==> g.newRanges[i].rowsBefore == Start(NewLens(g), i))
    && (forall i :: 0 <= i < |g.newRanges| ==> g.newRanges[i].fragment in g.newIds)
    && Sum(KeptLens(g, frags)) == Sum(NewLens(g))
  }

  /** What `build_step` makes sure of: every old fragment is in its group, and every group is filled. */
  ghost predicate Laid(s: Step) {
    && (forall gi :: 0 <= gi < |s.groups| ==> GroupOk(s.groups[gi], gi, s.frags))
    && (forall id :: id in s.frags ==>
          s.frags[id].group < |s.groups| && id in s.groups[s.frags[id].group].oldIds)
  }

  /** Rows as a compaction keeps them: ascending, each a row of the fragment. */
  ghost predicate KeptOk(kept: seq<nat>, physical: nat) {
    Ascending(kept) && forall o :: o in kept ==> o < physical
  }

  ghost predicate StepOk(s: Step) {
    Laid(s) && forall id :: id in s.frags ==> KeptOk(s.frags[id].kept, s.frags[id].physical)
  }

  // ---- resolve -------------------------------------------------------------------------------------

  datatype Place = Gone | At(row: Row)

  /** Where a group puts its index-th surviving row. */
  function Target(g: Group, index: nat): Row
    requires 1 <= UpperBound(NewStarts(g), index)
  {
    var r := g.newRanges[UpperBound(NewStarts(g), index) - 1];
    Row(r.fragment, index - r.rowsBefore)
  }

  /** Which surviving row of its group a surviving row is. */
  function IndexIn(of: OldFragment, off: nat): nat {
    of.rowsBefore + LowerBound(of.kept, off)
  }

  /** The search finds this place among the fragment's rows. */
  ghost predicate Found(s: Step, id: nat, off: nat) {
    id in s.frags && var kept := s.frags[id].kept; var pos := LowerBound(kept, off); pos < |kept| && kept[pos] == off
  }

  lemma IndexBelowTotal(s: Step, id: nat, off: nat)
    requires Laid(s) && Found(s, id, off)
    ensures var of := s.frags[id];
            var g := s.groups[of.group];
            exists i :: 0 <= i < |g.oldIds| && g.oldIds[i] == id && InRun(KeptLens(g, s.frags), i, IndexIn(of, off))
    ensures IndexIn(s.frags[id], off) < Sum(NewLens(s.groups[s.frags[id].group]))
  {
    hide LowerBound;
    var of := s.frags[id];
    var g := s.groups[of.group];
    assert GroupOk(g, of.group, s.frags);
    var i :| 0 <= i < |g.oldIds| && g.oldIds[i] == id;
    assert InRun(KeptLens(g, s.frags), i, IndexIn(of, off));
    RunBelowTotal(KeptLens(g, s.frags), i, IndexIn(of, off));
  }

  lemma TargetRun(s: Step, gi: nat, index: nat)
    requires Laid(s) && gi < |s.groups| && index < Sum(NewLens(s.groups[gi]))
    ensures UpperBound(NewStarts(s.groups[gi]), index) >= 1
    ensures InRun(NewLens(s.groups[gi]), UpperBound(NewStarts(s.groups[gi]), index) - 1, index)
  {
    assert GroupOk(s.groups[gi], gi, s.frags);
    UpperBoundFindsRun(NewLens(s.groups[gi]), NewStarts(s.groups[gi]), index);
  }

  /** One version applied to a row. */
  function Move(s: Step, r: Row): Place
    requires Laid(s)
  {
    if r.frag !in s.frags || r.off >= s.frags[r.frag].physical then At(r)
    else
      var of := s.frags[r.frag];
      var pos := LowerBound(of.kept, r.off);
      if pos == |of.kept| || of.kept[pos] != r.off then Gone
      else
        assert Found(s, r.frag, r.off);
        IndexBelowTotal(s, r.frag, r.off);
        TargetRun(s, of.group, IndexIn(of, r.off));
        At(Target(s.groups[of.group], IndexIn(of, r.off)))
  }

  /** Every row the version recorded as rewritten is looked for, and found at the place it was recorded at. */
  ghost predicate AllTraced(s: Step) {
    forall id, p :: id in s.frags && 0 <= p < |s.frags[id].kept| ==>
      s.frags[id].kept[p] < s.frags[id].physical && LowerBound(s.frags[id].kept, s.frags[id].kept[p]) == p
  }

  /** That is so exactly for the rows a compaction keeps: ascending, and inside their fragment. */
  lemma TracedIff(s: Step)
    requires Laid(s)
    ensures AllTraced(s) <==> StepOk(s)
  {
    hide Laid, LowerBound;
    forall id | id in s.frags
      ensures KeptOk(s.frags[id].kept, s.frags[id].physical) <==>
              forall p :: 0 <= p < |s.frags[id].kept| ==>
                s.frags[id].kept[p] < s.frags[id].physical && LowerBound(s.frags[id].kept, s.frags[id].kept[p]) == p
    {
      LowerBoundFindsAll(s.frags[id].kept);
      assert forall p :: 0 <= p < |s.frags[id].kept| ==> s.frags[id].kept[p] in s.frags[id].kept;
    }
  }

  ghost predicate AllLaid(steps: seq<Step>) {
    forall s :: s in steps ==> Laid(s)
  }

  /** Every version applied, oldest first. */
  function Resolved(steps: seq<Step>, r: Row): Place
    requires AllLaid(steps)
  {
    if steps == [] then At(r)
    else
      match Resolved(steps[..|steps| - 1], r)
      case Gone => Gone
      case At(r') => Move(steps[|steps| - 1], r')
  }

  /** The bits set in either number. */
  function BitOr(a: nat, b: nat): nat
    decreases a
  {
    if a == 0 then b else 2 * BitOr(a / 2, b / 2) + if a % 2 == 1 || b % 2 == 1 then 1 else 0
  }

  /** `(uint64(fragment) << 32) | offset`: what of the offset is past 32 bits runs into the fragment. */
  function Packed(r: Row): nat {
    BitOr(r.frag, r.off / U32) * U32 + r.off % U32
  }

  lemma {:induction false} OrNone(a: nat)
    ensures BitOr(a, 0) == a
    decreases a
  {
    if a > 0 { OrNone(a / 2); }
  }

  /** An address holds its row exactly when the row's number fits 32 bits. */
  lemma PackedHolds(r: Row)
    ensures RowOf(Packed(r)) == r <==> r.off < U32
    ensures r.off < U32 ==> Packed(r) == AddressOf(r)
  {
    hide BitOr;
    if r.off < U32 { OrNone(r.frag); }
    var high := BitOr(r.frag, r.off / U32);
    assert (high * U32 + r.off % U32) / U32 == high && (high * U32 + r.off % U32) % U32 == r.off % U32;
  }

  /** Every version applied to an address. */
  function ResolvedAddress(steps: seq<Step>, address: nat): Option<nat>
    requires AllLaid(steps)
  {
    if steps == [] then Some(address)
    else
      match ResolvedAddress(steps[..|steps| - 1], address)
      case None => None
      case Some(current) => Moved(steps[|steps| - 1], current)
  }

  function Moved(s: Step, current: nat): Option<nat>
    requires Laid(s)
  {
    if RowOf(current).frag !in s.frags || RowOf(current).off >= s.frags[RowOf(current).frag].physical then Some(current)
    else
      match Move(s, RowOf(current))
      case Gone => None
      case At(r) => Some(Packed(r))
  }

  /** `resolve`: None when a compaction deleted the row. */
  method Resolve(steps: seq<Step>, address: nat) returns (out: Option<nat>)
    requires AllLaid(steps)
    ensures out == ResolvedAddress(steps, address)
  {
    hide Move, Laid, Packed, RowOf;
    var current := address;
    for k := 0 to |steps|
      invariant ResolvedAddress(steps[..k], address) == Some(current)
    {
      var step := steps[k];
      assert steps[..k + 1][..k] == steps[..k] && step in steps;
      var row := RowOf(current);
      if row.frag !in step.frags || row.off >= step.frags[row.frag].physical {
        continue;
      }
      match Move(step, row)
      case Gone =>
        GoneStays(steps, k + 1, address);
        return None;
      case At(to) =>
        current := Packed(to);
    }
    assert steps[..|steps|] == steps;
    out := Some(current);
  }

  lemma {:induction false} GoneStays(steps: seq<Step>, k: nat, address: nat)
    requires AllLaid(steps) && k <= |steps| && ResolvedAddress(steps[..k], address) == None
    ensures ResolvedAddress(steps, address) == None
    decreases |steps| - k
  {
    if k == |steps| {
      assert steps[..k] == steps;
    } else {
      assert steps[..k + 1][..k] == steps[..k];
      GoneStays(steps, k + 1, address);
    }
  }

  /** No new fragment holds more rows than 32 bits count. */
  ghost predicate Narrow(s: Step) {
    forall gi, i :: 0 <= gi < |s.groups| && 0 <= i < |s.groups[gi].newRanges| ==>
        s.groups[gi].newRanges[i].physical <= U32
  }

  lemma MoveNarrow(s: Step, r: Row)
    requires Laid(s) && Narrow(s) && r.off < U32
    ensures Move(s, r).At? ==> Move(s, r).row.off < U32
  {
    hide LowerBound;
    if r.frag in s.frags && Move(s, r).At? && r.off < s.frags[r.frag].physical {
      var of := s.frags[r.frag];
      assert Found(s, r.frag, r.off);
      IndexBelowTotal(s, r.frag, r.off);
      TargetRun(s, of.group, IndexIn(of, r.off));
      assert GroupOk(s.groups[of.group], of.group, s.frags);
    }
  }

  /** While the new fragments fit 32 bits, resolving addresses is resolving rows. */
  lemma {:induction false} ResolvesRows(steps: seq<Step>, address: nat)
    requires AllLaid(steps) && forall s :: s in steps ==> Narrow(s)
    ensures ResolvedAddress(steps, address)
            == match Resolved(steps, RowOf(address)) case Gone => None case At(r) => Some(AddressOf(r))
    ensures Resolved(steps, RowOf(address)).At? ==> Resolved(steps, RowOf(address)).row.off < U32
    decreases |steps|
  {
    hide Move, Laid, Narrow, Packed;
    if steps == [] {
      assert AddressOf(RowOf(address)) == address;
    } else {
      var n := |steps| - 1;
      var before := steps[..n];
      ResolvesRows(before, address);
      assert steps[n] in steps;
      if Resolved(before, RowOf(address)).At? {
        var r := Resolved(before, RowOf(address)).row;
        RowOfAddress(r);
        MoveNarrow(steps[n], r);
        MoveStays(steps[n], r);
        if Move(steps[n], r).At? { PackedHolds(Move(steps[n], r).row); }
      }
    }
  }

  lemma MoveStays(s: Step, r: Row)
    requires Laid(s)
    ensures r.frag !in s.frags || r.off >= s.frags[r.frag].physical ==> Move(s, r) == At(r)
  {
  }

  lemma RowOfAddress(r: Row)
    requires r.off < U32
    ensures RowOf(AddressOf(r)) == r
  {
  }

  // ---- remap_coverage ------------------------------------------------------------------------------

  /** One group: held whole, its old fragments give way to its new ones; held in part, they are dropped. */
  function RemapGroup(covered: set<nat>, g: Group): set<nat> {
    if g.oldIds != [] && Members(g.oldIds) <= covered then covered - Members(g.oldIds) + Members(g.newIds)
    else covered - Members(g.oldIds)
  }

  function RemapGroups(covered: set<nat>, groups: seq<Group>): set<nat> {
    if groups == [] then covered
    else RemapGroup(RemapGroups(covered, groups[..|groups| - 1]), groups[|groups| - 1])
  }

  function RemapAll(covered: set<nat>, steps: seq<Step>): set<nat> {
    if steps == [] then covered
    else RemapGroups(RemapAll(covered, steps[..|steps| - 1]), steps[|steps| - 1].groups)
  }

  method EraseAll(covered: set<nat>, ids: seq<nat>) returns (left: set<nat>, removed: nat)
    requires Distinct(ids)
    ensures left == covered - Members(ids)
    ensures removed <= |ids| && (removed == |ids| <==> Members(ids) <= covered)
  {
    left, removed := covered, 0;
    for i := 0 to |ids|
      invariant left == covered - Members(ids[..i])
      invariant removed <= i && (removed == i <==> Members(ids[..i]) <= covered)
    {
      assert ids[..i + 1] == ids[..i] + [ids[i]];
      MembersPush(ids[..i], ids[i]);
      if ids[i] in left {
        left, removed := left - {ids[i]}, removed + 1;
      }
    }
    assert ids[..|ids|] == ids;
  }

  /** `remap_coverage`. Without versions the ids come back as they are; else ascending and distinct. */
  method RemapCoverage(steps: seq<Step>, ids: seq<nat>) returns (out: seq<nat>)
    requires AllLaid(steps)
    ensures Members(out) == RemapAll(Members(ids), steps)
    ensures if steps == [] then out == ids else Ascending(out)
  {
    hide Members, Ascending, RemapGroups, Laid;
    if steps == [] {
      return ids;
    }
    var covered := Members(ids);
    for k := 0 to |steps|
      invariant covered == RemapAll(Members(ids), steps[..k])
    {
      assert steps[..k + 1][..k] == steps[..k] && steps[k] in steps;
      covered := RemapStep(covered, steps[k]);
    }
    assert steps[..|steps|] == steps;
    out := SortedSet(covered);
  }

  method RemapStep(covered: set<nat>, s: Step) returns (r: set<nat>)
    requires Laid(s)
    ensures r == RemapGroups(covered, s.groups)
  {
    hide Members, RemapGroup;
    r := covered;
    for j := 0 to |s.groups|
      invariant r == RemapGroups(covered, s.groups[..j])
    {
      assert s.groups[..j + 1][..j] == s.groups[..j];
      assert GroupOk(s.groups[j], j, s.frags);
      r := RemapOne(r, s.groups[j]);
    }
    assert s.groups[..|s.groups|] == s.groups;
  }

  method RemapOne(covered: set<nat>, g: Group) returns (r: set<nat>)
    requires Distinct(g.oldIds)
    ensures r == RemapGroup(covered, g)
  {
    var left, removed := EraseAll(covered, g.oldIds);
    r := left;
    if removed == |g.oldIds| && removed != 0 {
      r := left + Members(g.newIds);
    }
  }

  // ---- compactions of a table ----------------------------------------------------------------------

  /** The rows of every fragment the table ever had, and the fragments it has now. */
  datatype Table = Table(ever: map<nat, nat>, live: set<nat>)

  ghost predicate WasRow(t: Table, r: Row) {
    r.frag in t.ever && r.off < t.ever[r.frag]
  }

  ghost predicate IsRow(t: Table, r: Row) {
    r.frag in t.live && WasRow(t, r)
  }

  ghost predicate HasRange(g: Group, id: nat) {
    exists i :: 0 <= i < |g.newRanges| && g.newRanges[i].fragment == id
  }

  /** A group's new fragments: ids never used before, each written by one range, none without one holding rows. */
  ghost predicate GroupWritten(g: Group, t: Table, t': Table) {
    && (forall id :: id in g.newIds ==> id !in t.ever && id in t'.ever && (HasRange(g, id) || t'.ever[id] == 0))
    && (forall i :: 0 <= i < |g.newRanges| ==>
          g.newRanges[i].fragment in t'.ever && t'.ever[g.newRanges[i].fragment] == g.newRanges[i].physical)
    && (forall i, j :: 0 <= i < j < |g.newRanges| ==> g.newRanges[i].fragment != g.newRanges[j].fragment)
  }

  /** The step took table t to t': it rewrote live fragments, whole, into new ones. Before or after it other
      writers may have added fragments with ids of their own and removed fragments; none comes back. */
  ghost predicate Compacts(s: Step, t: Table, t': Table) {
    && StepOk(s)
    && (forall id :: id in s.frags ==> id in t.live && id in t.ever && s.frags[id].physical == t.ever[id])
    && (forall gi :: 0 <= gi < |s.groups| ==> GroupWritten(s.groups[gi], t, t'))
    && (forall gi, gj, id :: 0 <= gi < gj < |s.groups| && id in s.groups[gi].newIds ==> id !in s.groups[gj].newIds)
    && (forall id :: id in t.ever ==> id in t'.ever && t'.ever[id] == t.ever[id])
    && t'.live <= t'.ever.Keys && t'.live !! s.frags.Keys && t'.live * t.ever.Keys <= t.live
  }

  /** The compactions that took the first table to the last; so each can be resolved through. */
  ghost predicate History(tables: seq<Table>, steps: seq<Step>)
    ensures History(tables, steps) ==> AllLaid(steps)
  {
    if |tables| == |steps| + 1 && forall k :: 0 <= k < |steps| ==> Compacts(steps[k], tables[k], tables[k + 1]) then
      HistoryLaid(tables, steps);
      true
    else false
  }

  lemma HistoryLaid(tables: seq<Table>, steps: seq<Step>)
    requires |tables| == |steps| + 1 && forall k :: 0 <= k < |steps| ==> Compacts(steps[k], tables[k], tables[k + 1])
    ensures AllLaid(steps)
  {
    hide Laid;
    forall s | s in steps ensures Laid(s) {
      var k :| 0 <= k < |steps| && steps[k] == s;
      assert Compacts(steps[k], tables[k], tables[k + 1]);
    }
  }

  /** A surviving row of a rewritten fragment. */
  ghost predicate Survives(s: Step, r: Row) {
    r.frag in s.frags && r.off in s.frags[r.frag].kept
  }

  ghost function IndexOf(s: Step, r: Row): nat
    requires Survives(s, r)
  {
    IndexIn(s.frags[r.frag], r.off)
  }

  /** A moved row stands in the run of its index. */
  lemma MoveTarget(s: Step, r: Row) returns (j: nat)
    requires StepOk(s) && Survives(s, r)
    ensures var g := s.groups[s.frags[r.frag].group];
            j < |g.newRanges| && InRun(NewLens(g), j, IndexOf(s, r))
            && Move(s, r) == At(Row(g.newRanges[j].fragment, IndexOf(s, r) - Start(NewLens(g), j)))
  {
    hide LowerBound, UpperBound, GroupWritten, Start;
    var of := s.frags[r.frag];
    LowerBoundFinds(of.kept, r.off);
    assert KeptOk(of.kept, of.physical) && Found(s, r.frag, r.off);
    IndexBelowTotal(s, r.frag, r.off);
    TargetRun(s, of.group, IndexOf(s, r));
    assert GroupOk(s.groups[of.group], of.group, s.frags);
    j := UpperBound(NewStarts(s.groups[of.group]), IndexOf(s, r)) - 1;
  }

  /** Two surviving rows of a group with the same index are the same row. */
  lemma IndexInjective(s: Step, a: Row, b: Row)
    requires StepOk(s) && Survives(s, a) && Survives(s, b)
    requires s.frags[a.frag].group == s.frags[b.frag].group && IndexOf(s, a) == IndexOf(s, b)
    ensures a == b
  {
    hide LowerBound, Laid, KeptLens, Start;
    GroupOf(s, a.frag);
    assert KeptOk(s.frags[a.frag].kept, s.frags[a.frag].physical)
        && KeptOk(s.frags[b.frag].kept, s.frags[b.frag].physical);
    LowerBoundFinds(s.frags[a.frag].kept, a.off);
    LowerBoundFinds(s.frags[b.frag].kept, b.off);
    IndexBelowTotal(s, a.frag, a.off);
    IndexBelowTotal(s, b.frag, b.off);
    var g := s.groups[s.frags[a.frag].group];
    var i :| 0 <= i < |g.oldIds| && g.oldIds[i] == a.frag && InRun(KeptLens(g, s.frags), i, IndexOf(s, a));
    var k :| 0 <= k < |g.oldIds| && g.oldIds[k] == b.frag && InRun(KeptLens(g, s.frags), k, IndexOf(s, b));
    RunUnique(KeptLens(g, s.frags), i, k, IndexOf(s, a));
  }

  lemma MoveUnmoved(s: Step, t: Table, t': Table, r: Row)
    requires Compacts(s, t, t') && WasRow(t, r) && !Survives(s, r)
    ensures Move(s, r) == if r.frag in s.frags then Gone else At(r)
  {
    hide GroupWritten, GroupOk;
    if r.frag in s.frags { LowerBoundFinds(s.frags[r.frag].kept, r.off); }
  }

  /** A row that is moved lands in a fragment that was not there before; one that is not stays. */
  lemma MoveLands(s: Step, t: Table, t': Table, r: Row)
    requires Compacts(s, t, t') && WasRow(t, r) && Move(s, r).At?
    ensures WasRow(t', Move(s, r).row)
    ensures Survives(s, r) ==> Move(s, r).row.frag !in t.ever
    ensures !Survives(s, r) ==> Move(s, r).row == r
  {
    hide Move, StepOk, GroupOk;
    if Survives(s, r) {
      var j := MoveTarget(s, r);
      GroupOf(s, r.frag);
      var gi := s.frags[r.frag].group;
      assert GroupWritten(s.groups[gi], t, t') && GroupOk(s.groups[gi], gi, s.frags);
      RangeNew(s, gi, j);
    } else {
      MoveUnmoved(s, t, t', r);
    }
  }

  lemma GroupOf(s: Step, id: nat)
    requires StepOk(s) && id in s.frags
    ensures s.frags[id].group < |s.groups| && GroupOk(s.groups[s.frags[id].group], s.frags[id].group, s.frags)
  {
  }

  lemma RangeNew(s: Step, gi: nat, j: nat)
    requires gi < |s.groups| && GroupOk(s.groups[gi], gi, s.frags) && j < |s.groups[gi].newRanges|
    ensures s.groups[gi].newRanges[j].fragment in s.groups[gi].newIds
  {
  }

  /** A fragment is written by one range of one group. */
  lemma RangeUnique(s: Step, t: Table, t': Table, gi: nat, i: nat, gj: nat, j: nat)
    requires Compacts(s, t, t') && gi < |s.groups| && gj < |s.groups|
    requires i < |s.groups[gi].newRanges| && j < |s.groups[gj].newRanges|
    requires s.groups[gi].newRanges[i].fragment == s.groups[gj].newRanges[j].fragment
    ensures gi == gj && i == j
  {
    hide GroupOk, StepOk;
    assert GroupWritten(s.groups[gi], t, t') && GroupWritten(s.groups[gj], t, t');
    StepGroups(s, gi);
    StepGroups(s, gj);
    RangeNew(s, gi, i);
    RangeNew(s, gj, j);
  }

  lemma StepGroups(s: Step, gi: nat)
    requires StepOk(s) && gi < |s.groups|
    ensures GroupOk(s.groups[gi], gi, s.frags)
  {
  }

  /** One compaction never puts two rows in the same place. */
  lemma MoveInjective(s: Step, t: Table, t': Table, a: Row, b: Row)
    requires Compacts(s, t, t') && WasRow(t, a) && WasRow(t, b)
    requires Move(s, a).At? && Move(s, a) == Move(s, b)
    ensures a == b
  {
    hide Move, StepOk, GroupOk, GroupWritten;
    MoveLands(s, t, t', a);
    MoveLands(s, t, t', b);
    if Survives(s, a) && Survives(s, b) {
      GroupOf(s, a.frag);
      GroupOf(s, b.frag);
      var i := MoveTarget(s, a);
      var j := MoveTarget(s, b);
      RangeUnique(s, t, t', s.frags[a.frag].group, i, s.frags[b.frag].group, j);
      IndexInjective(s, a, b);
    }
  }

  /** Every index below a group's total is some surviving row's. */
  lemma OldRowAt(s: Step, gi: nat, index: nat) returns (from: Row)
    requires StepOk(s) && gi < |s.groups| && GroupOk(s.groups[gi], gi, s.frags)
    requires index < Sum(KeptLens(s.groups[gi], s.frags))
    ensures Survives(s, from) && from.frag in s.groups[gi].oldIds
    ensures s.frags[from.frag].group == gi && IndexOf(s, from) == index
  {
    var g := s.groups[gi];
    var i := RunExists(KeptLens(g, s.frags), index);
    var id := g.oldIds[i];
    assert id in g.oldIds && id in s.frags;
    var pos := index - Start(KeptLens(g, s.frags), i);
    from := Row(id, s.frags[id].kept[pos]);
    LowerBoundFinds(s.frags[id].kept, from.off);
  }

  /** Every surviving row of a version keeps its place in its address if and only if no new fragment holds more
      rows than 32 bits count. */
  lemma NarrowIff(s: Step)
    requires StepOk(s)
    ensures Narrow(s) <==> forall r :: Survives(s, r) ==> AddressKeeps(s, r)
  {
    hide Move, Laid, Packed, Sum, IndexOf;
    forall gi, i | 0 <= gi < |s.groups| && 0 <= i < |s.groups[gi].newRanges| && s.groups[gi].newRanges[i].physical > U32
      ensures exists r :: Survives(s, r) && !AddressKeeps(s, r)
    {
      var r := WideRow(s, gi, i);
    }
    forall r | Survives(s, r) && Narrow(s) ensures AddressKeeps(s, r) {
      var j := MoveTarget(s, r);
      GroupOf(s, r.frag);
      assert s.groups[s.frags[r.frag].group].newRanges[j].physical <= U32;
      PackedHolds(Move(s, r).row);
    }
  }

  ghost predicate AddressKeeps(s: Step, r: Row)
    requires StepOk(s)
  {
    Move(s, r).At? && RowOf(Packed(Move(s, r).row)) == Move(s, r).row
  }

  lemma WideRow(s: Step, gi: nat, i: nat) returns (from: Row)
    requires StepOk(s) && gi < |s.groups| && i < |s.groups[gi].newRanges| && s.groups[gi].newRanges[i].physical > U32
    ensures Survives(s, from) && !AddressKeeps(s, from)
  {
    hide Move, Laid, Sum, IndexIn, IndexOf, Survives, Packed;
    var g := s.groups[gi];
    StepGroups(s, gi);
    var index := Start(NewLens(g), i) + U32;
    assert InRun(NewLens(g), i, index);
    RunBelowTotal(NewLens(g), i, index);
    from := OldRowAt(s, gi, index);
    var j := MoveTarget(s, from);
    RunUnique(NewLens(g), i, j, index);
    PackedHolds(Move(s, from).row);
  }

  /** Two fragments compacted into one of a row more than 32 bits count. */
  ghost function WideStep(): Step {
    Step([Group([NewRange(9, 0, U32 + 1)], [5, 6], [9])],
         map[5 := OldFragment(0, 0, U32, seq(U32, i => i)), 6 := OldFragment(0, U32, 1, [0])])
  }

  lemma WideSums()
    ensures Sum([]) == 0 && Sum([U32]) == U32 && Sum([U32, 1]) == U32 + 1 && Sum([U32 + 1]) == U32 + 1
  {
    assert [U32, 1][..1] == [U32] && [U32][..0] == [] && [U32 + 1][..0] == [];
  }

  lemma WideLens()
    ensures var s := WideStep();
            KeptLens(s.groups[0], s.frags) == [U32, 1] && NewLens(s.groups[0]) == [U32 + 1]
  {
  }

  lemma WideGroupOk()
    ensures GroupOk(WideStep().groups[0], 0, WideStep().frags)
  {
    hide Sum;
    WideLens();
    WideSums();
    assert [U32, 1][..0] == [] && [U32, 1][..1] == [U32] && [U32 + 1][..0] == [];
  }

  lemma WideStepOk()
    ensures StepOk(WideStep())
  {
    hide GroupOk;
    WideGroupOk();
    assert WideStep().frags.Keys == {5, 6};
  }

  lemma FirstIndex(s: Step, id: nat)
    requires StepOk(s) && id in s.frags && s.frags[id].kept != [] && s.frags[id].kept[0] == 0
    ensures Survives(s, Row(id, 0)) && IndexOf(s, Row(id, 0)) == s.frags[id].rowsBefore
  {
    hide LowerBound;
    LowerBoundFinds(s.frags[id].kept, 0);
  }

  /** The only new fragment of a group holds its rows in order. */
  lemma OneRange(s: Step, r: Row)
    requires StepOk(s) && Survives(s, r) && |s.groups[s.frags[r.frag].group].newRanges| == 1
    ensures Move(s, r) == At(Row(s.groups[s.frags[r.frag].group].newRanges[0].fragment, IndexOf(s, r)))
  {
    hide Move, IndexOf;
    var j := MoveTarget(s, r);
    var g := s.groups[s.frags[r.frag].group];
    assert NewLens(g)[..0] == [];
  }

  lemma PackedAlike()
    ensures Packed(Row(9, 0)) == Packed(Row(9, U32))
  {
    OrNone(9);
    assert BitOr(4, 0) == 4 by { OrNone(4); }
    assert BitOr(9, 1) == 9;
  }

  /** There two rows that are apart are given one address. */
  lemma WideCollides()
    ensures StepOk(WideStep()) && Survives(WideStep(), Row(5, 0)) && Survives(WideStep(), Row(6, 0))
    ensures Move(WideStep(), Row(5, 0)) == At(Row(9, 0)) && Move(WideStep(), Row(6, 0)) == At(Row(9, U32))
    ensures Packed(Row(9, 0)) == Packed(Row(9, U32))
  {
    hide Move, StepOk, Survives, IndexOf, Packed;
    WideStepOk();
    PackedAlike();
    var s := WideStep();
    assert s.frags[5].kept[0] == 0 && s.frags[6].kept[0] == 0;
    FirstIndex(s, 5);
    FirstIndex(s, 6);
    OneRange(s, Row(5, 0));
    OneRange(s, Row(6, 0));
  }

  lemma SurvivorIsRow(s: Step, t: Table, t': Table, r: Row)
    requires Compacts(s, t, t') && Survives(s, r)
    ensures IsRow(t, r)
  {
    hide GroupOk, GroupWritten;
  }

  /** Every row of a new fragment was a row of one of its group's old fragments. */
  lemma MoveOnto(s: Step, t: Table, t': Table, gi: nat, r: Row) returns (from: Row)
    requires Compacts(s, t, t') && gi < |s.groups| && r.frag in s.groups[gi].newIds && WasRow(t', r)
    ensures Survives(s, from) && from.frag in s.groups[gi].oldIds && IsRow(t, from) && Move(s, from) == At(r)
  {
    hide Move, StepOk, Sum, IndexIn, IndexOf, Survives;
    var g := s.groups[gi];
    StepGroups(s, gi);
    assert GroupWritten(g, t, t');
    var j :| 0 <= j < |g.newRanges| && g.newRanges[j].fragment == r.frag;
    var index := Start(NewLens(g), j) + r.off;
    assert InRun(NewLens(g), j, index);
    RunBelowTotal(NewLens(g), j, index);
    from := OldRowAt(s, gi, index);
    SurvivorIsRow(s, t, t', from);
    var j' := MoveTarget(s, from);
    RunUnique(NewLens(g), j, j', index);
  }

  // ---- coverage after one version ------------------------------------------------------------------

  /** The coverage held the group whole. */
  ghost predicate Whole(covered: set<nat>, g: Group) {
    g.oldIds != [] && Members(g.oldIds) <= covered
  }

  ghost predicate Rewrites(groups: seq<Group>, id: nat) {
    exists gi :: 0 <= gi < |groups| && id in groups[gi].oldIds
  }

  ghost predicate WrittenWhole(covered: set<nat>, groups: seq<Group>, id: nat) {
    exists gi :: 0 <= gi < |groups| && Whole(covered, groups[gi]) && id in groups[gi].newIds
  }

  /** No fragment is rewritten by two groups, and none is rewritten and written. */
  ghost predicate Apart(groups: seq<Group>) {
    && (forall gi, gj, id :: 0 <= gi < gj < |groups| && id in groups[gi].oldIds ==> id !in groups[gj].oldIds)
    && (forall gi, gj, id :: 0 <= gi < |groups| && 0 <= gj < |groups| && id in groups[gi].newIds ==>
        id !in groups[gj].oldIds)
  }

  /** The groups are taken one after the other, but it comes to the same as all at once: a fragment is covered
      after the version if it was and no group rewrote it, or if a group the coverage held whole wrote it. */
  lemma {:induction false} RemapGroupsIs(covered: set<nat>, groups: seq<Group>, id: nat)
    requires Apart(groups)
    ensures id in RemapGroups(covered, groups)
       <==> (id in covered && !Rewrites(groups, id)) || WrittenWhole(covered, groups, id)
    decreases |groups|, 0
  {
    if groups != [] {
      var n := |groups| - 1;
      var before, g := groups[..n], groups[n];
      assert forall gi :: 0 <= gi < n ==> before[gi] == groups[gi];
      RemapGroupsIs(covered, before, id);
      WholeKept(covered, groups, n);
      assert Rewrites(groups, id) <==> Rewrites(before, id) || id in g.oldIds;
      WrittenLast(covered, groups, id);
      if WrittenWhole(covered, before, id) {
        var gi :| 0 <= gi < n && Whole(covered, before[gi]) && id in before[gi].newIds;
        assert id in groups[gi].newIds && id !in groups[n].oldIds;
      }
    }
  }

  lemma WrittenLast(covered: set<nat>, groups: seq<Group>, id: nat)
    requires groups != []
    ensures var n := |groups| - 1;
            WrittenWhole(covered, groups, id) <==>
            WrittenWhole(covered, groups[..n], id) || (Whole(covered, groups[n]) && id in groups[n].newIds)
  {
    hide Whole;
    var n := |groups| - 1;
    var before := groups[..n];
    if WrittenWhole(covered, before, id) {
      var gi :| 0 <= gi < n && Whole(covered, before[gi]) && id in before[gi].newIds;
      assert Whole(covered, groups[gi]) && id in groups[gi].newIds;
    }
    if WrittenWhole(covered, groups, id) && !(Whole(covered, groups[n]) && id in groups[n].newIds) {
      var gi :| 0 <= gi < |groups| && Whole(covered, groups[gi]) && id in groups[gi].newIds;
      assert Whole(covered, before[gi]) && id in before[gi].newIds;
    }
  }

  /** The groups before do not change whether a group is held whole. */
  lemma WholeKept(covered: set<nat>, groups: seq<Group>, n: nat)
    requires Apart(groups) && n < |groups|
    ensures Whole(RemapGroups(covered, groups[..n]), groups[n]) <==> Whole(covered, groups[n])
    decreases n, 1
  {
    var before, g := groups[..n], groups[n];
    assert forall gi :: 0 <= gi < n ==> before[gi] == groups[gi];
    forall id | id in g.oldIds ensures id in RemapGroups(covered, before) <==> id in covered {
      RemapGroupsIs(covered, before, id);
      assert !Rewrites(before, id);
      assert !WrittenWhole(covered, before, id);
    }
  }

  lemma CompactsApart(s: Step, t: Table, t': Table)
    requires Compacts(s, t, t')
    ensures Apart(s.groups)
    ensures forall id :: Rewrites(s.groups, id) <==> id in s.frags
  {
    forall gi | 0 <= gi < |s.groups| ensures GroupOk(s.groups[gi], gi, s.frags) && GroupWritten(s.groups[gi], t, t') { }
  }

  // ---- over any number of compactions --------------------------------------------------------------

  lemma HistoryPrefix(tables: seq<Table>, steps: seq<Step>)
    requires History(tables, steps) && steps != []
    ensures History(tables[..|steps|], steps[..|steps| - 1])
    ensures Compacts(steps[|steps| - 1], tables[|steps| - 1], tables[|steps|])
  {
    hide Compacts;
    var n := |steps| - 1;
    assert Compacts(steps[n], tables[n], tables[n + 1]);
    forall k | 0 <= k < n ensures Compacts(steps[..n][k], tables[..n + 1][k], tables[..n + 1][k + 1]) {
      assert Compacts(steps[k], tables[k], tables[k + 1]);
    }
  }

  /** Where a row of the first table is now, it is a row. */
  lemma {:induction false} ResolvedLands(tables: seq<Table>, steps: seq<Step>, r: Row)
    requires History(tables, steps) && WasRow(tables[0], r)
    ensures Resolved(steps, r).At? ==> WasRow(tables[|steps|], Resolved(steps, r).row)
    decreases |steps|
  {
    hide Move, Compacts;
    if steps != [] {
      var n := |steps| - 1;
      HistoryPrefix(tables, steps);
      ResolvedLands(tables[..n + 1], steps[..n], r);
      if Resolved(steps, r).At? {
        MoveLands(steps[n], tables[n], tables[n + 1], Resolved(steps[..n], r).row);
      }
    }
  }

  /** Through any number of compactions no two rows are resolved to the same address. */
  lemma {:induction false} ResolveInjective(tables: seq<Table>, steps: seq<Step>, a: Row, b: Row)
    requires History(tables, steps) && WasRow(tables[0], a) && WasRow(tables[0], b)
    requires Resolved(steps, a).At? && Resolved(steps, a) == Resolved(steps, b)
    ensures a == b
    decreases |steps|
  {
    hide Move, Compacts;
    if steps != [] {
      var n := |steps| - 1;
      HistoryPrefix(tables, steps);
      var a', b' := Resolved(steps[..n], a).row, Resolved(steps[..n], b).row;
      ResolvedLands(tables[..n + 1], steps[..n], a);
      ResolvedLands(tables[..n + 1], steps[..n], b);
      MoveInjective(steps[n], tables[n], tables[n + 1], a', b');
      ResolveInjective(tables[..n + 1], steps[..n], a, b);
    }
  }

  lemma {:induction false} CoverageEver(tables: seq<Table>, steps: seq<Step>, covered: set<nat>)
    requires History(tables, steps) && covered <= tables[0].ever.Keys
    ensures RemapAll(covered, steps) <= tables[|steps|].ever.Keys
    decreases |steps|
  {
    hide Compacts, RemapGroups;
    if steps != [] {
      var n := |steps| - 1;
      HistoryPrefix(tables, steps);
      CoverageEver(tables[..n + 1], steps[..n], covered);
      StepEver(steps[n], tables[n], tables[n + 1], RemapAll(covered, steps[..n]));
    }
  }

  lemma StepEver(s: Step, t: Table, t': Table, covered: set<nat>)
    requires Compacts(s, t, t') && covered <= t.ever.Keys
    ensures RemapGroups(covered, s.groups) <= t'.ever.Keys
  {
    hide StepOk, RemapGroups;
    CompactsApart(s, t, t');
    forall id | id in RemapGroups(covered, s.groups) ensures id in t'.ever {
      RemapGroupsIs(covered, s.groups, id);
      if id !in covered {
        var gi :| 0 <= gi < |s.groups| && Whole(covered, s.groups[gi]) && id in s.groups[gi].newIds;
        assert GroupWritten(s.groups[gi], t, t');
      }
    }
  }

  /** One version back: a live row of a covered fragment was a live row of a fragment covered before. */
  lemma CoveredBefore(s: Step, t: Table, t': Table, covered: set<nat>, r: Row) returns (from: Row)
    requires Compacts(s, t, t') && covered <= t.ever.Keys
    requires r.frag in RemapGroups(covered, s.groups) && IsRow(t', r)
    ensures IsRow(t, from) && from.frag in covered && Move(s, from) == At(r)
  {
    hide RemapGroups, Move, StepOk;
    CompactsApart(s, t, t');
    RemapGroupsIs(covered, s.groups, r.frag);
    if r.frag in covered && !Rewrites(s.groups, r.frag) {
      from := r;
      MoveUnmoved(s, t, t', r);
    } else {
      var gi :| 0 <= gi < |s.groups| && Whole(covered, s.groups[gi]) && r.frag in s.groups[gi].newIds;
      from := MoveOnto(s, t, t', gi, r);
    }
  }

  /** A remapped index misses nothing: after any number of compactions every live row of a fragment it still
      claims to cover is where one of the rows it was built over is now. */
  lemma {:induction false} CoverageSound(tables: seq<Table>, steps: seq<Step>, covered: set<nat>, r: Row)
    returns (from: Row)
    requires History(tables, steps) && covered <= tables[0].ever.Keys
    requires r.frag in RemapAll(covered, steps) && IsRow(tables[|steps|], r)
    ensures IsRow(tables[0], from) && from.frag in covered && Resolved(steps, from) == At(r)
    decreases |steps|
  {
    hide Move, Compacts, RemapGroups;
    if steps == [] {
      from := r;
    } else {
      var n := |steps| - 1;
      HistoryPrefix(tables, steps);
      CoverageEver(tables[..n + 1], steps[..n], covered);
      var mid := CoveredBefore(steps[n], tables[n], tables[n + 1], RemapAll(covered, steps[..n]), r);
      from := CoverageSound(tables[..n + 1], steps[..n], covered, mid);
    }
  }
}
