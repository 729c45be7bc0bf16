/** `build_step` of src/table/frag_reuse.cpp: which recorded versions are accepted, and when an accepted one lets
    every rewritten row be found. */
module FragBuild {
  import opened Order
  import opened Search
  import opened FragReuse
  import opened Options

  /** A fragment as the index records it: its id and physical rows. */
  datatype Digest = Digest(id: nat, physical: nat)

  /** One rewrite group as read: the old addresses that were rewritten, and the fragments they came from and
      went to. */
  datatype RawGroup = RawGroup(changed: seq<nat>, oldFrags: seq<Digest>, newFrags: seq<Digest>)

  function Ids(ds: seq<Digest>): (ids: seq<nat>)
    ensures |ids| == |ds| && forall i :: 0 <= i < |ds| ==> ids[i] == ds[i].id
  {
    seq(|ds|, i requires 0 <= i < |ds| => ds[i].id)
  }

  function Rows(ds: seq<Digest>): (rows: seq<nat>)
    ensures |rows| == |ds| && forall i :: 0 <= i < |ds| ==> rows[i] == ds[i].physical
  {
    seq(|ds|, i requires 0 <= i < |ds| => ds[i].physical)
  }

  /** The offsets of the addresses that lie in fragment id, in order. */
  function KeptOf(changed: seq<nat>, id: nat): seq<nat> {
    if changed == [] then []
    else
      var n := |changed| - 1;
      KeptOf(changed[..n], id) + if changed[n] / U32 == id then [changed[n] % U32] else []
  }

  lemma {:induction false} KeptOfMembers(changed: seq<nat>, id: nat)
    ensures forall o: nat :: o in KeptOf(changed, id) <==> o < U32 && AddressOf(Row(id, o)) in changed
    decreases |changed|
  {
    if changed != [] {
      var n := |changed| - 1;
      KeptOfMembers(changed[..n], id);
      assert changed == changed[..n] + [changed[n]];
      forall o: nat | o < U32
        ensures AddressOf(Row(id, o)) == changed[n] <==> changed[n] / U32 == id && changed[n] % U32 == o
      {
      }
    }
  }

  lemma {:induction false} KeptOfAscending(changed: seq<nat>, id: nat)
    requires Ascending(changed)
    ensures Ascending(KeptOf(changed, id))
    decreases |changed|
  {
    if changed != [] {
      var n := |changed| - 1;
      KeptOfAscending(changed[..n], id);
      KeptOfMembers(changed[..n], id);
      var k := KeptOf(changed[..n], id);
      forall i | 0 <= i < |k| && changed[n] / U32 == id ensures k[i] < changed[n] % U32 {
        assert k[i] in k;
        var a := AddressOf(Row(id, k[i]));
        var j :| 0 <= j < n && changed[j] == a;
      }
    }
  }

  /** How many rows of each old fragment were rewritten. */
  function RawLens(rg: RawGroup): (l: seq<nat>)
    ensures |l| == |rg.oldFrags| && forall i :: 0 <= i < |l| ==> l[i] == |KeptOf(rg.changed, rg.oldFrags[i].id)|
  {
    seq(|rg.oldFrags|, i requires 0 <= i < |rg.oldFrags| => |KeptOf(rg.changed, rg.oldFrags[i].id)|)
  }

  /** `kept.back() < physical`: the last of the rows recorded is a row of the fragment. */
  predicate LastInside(kept: seq<nat>, physical: nat) {
    kept != [] ==> kept[|kept| - 1] < physical
  }

  /** What one old fragment of a group must satisfy. */
  ghost predicate OldAccepted(rg: RawGroup, d: Digest, frags: map<nat, OldFragment>) {
    d.id !in frags && LastInside(KeptOf(rg.changed, d.id), d.physical)
  }

  /** When a group is accepted: no old fragment twice, here or in an earlier group; every rewritten row in one of
      them, and the last of each inside; as many rows rewritten as the new fragments hold. */
  ghost predicate Accepted(rg: RawGroup, frags: map<nat, OldFragment>) {
    && Distinct(Ids(rg.oldFrags))
    && (forall d :: d in rg.oldFrags ==> OldAccepted(rg, d, frags))
    && (forall a :: a in rg.changed ==> a / U32 in Ids(rg.oldFrags))
    && Sum(RawLens(rg)) == Sum(Rows(rg.newFrags))
  }

  /** `kept[fragment].push_back(offset)` for every address. */
  method CollectKept(changed: seq<nat>) returns (kept: map<nat, seq<nat>>)
    ensures forall id :: id in kept <==> KeptOf(changed, id) != []
    ensures forall id :: id in kept ==> kept[id] == KeptOf(changed, id)
  {
    kept := map[];
    for k := 0 to |changed|
      invariant forall id :: id in kept <==> KeptOf(changed[..k], id) != []
      invariant forall id :: id in kept ==> kept[id] == KeptOf(changed[..k], id)
    {
      assert changed[..k + 1][..k] == changed[..k];
      var frag, off := changed[k] / U32, changed[k] % U32;
      kept := kept[frag := (if frag in kept then kept[frag] else []) + [off]];
    }
    assert changed[..|changed|] == changed;
  }

  /** Ranges laid end to end. */
  ghost predicate EndToEnd(ranges: seq<NewRange>) {
    var lens := RangeLens(ranges);
    forall i :: 0 <= i < |ranges| ==> ranges[i].rowsBefore == Start(lens, i)
  }

  function RangeLens(ranges: seq<NewRange>): (l: seq<nat>)
    ensures |l| == |ranges| && forall i :: 0 <= i < |l| ==> l[i] == ranges[i].physical
  {
    seq(|ranges|, i requires 0 <= i < |ranges| => ranges[i].physical)
  }

  lemma PushRange(ranges: seq<NewRange>, r: NewRange)
    requires EndToEnd(ranges) && r.rowsBefore == Sum(RangeLens(ranges))
    ensures EndToEnd(ranges + [r]) && Sum(RangeLens(ranges + [r])) == Sum(RangeLens(ranges)) + r.physical
  {
    var l, l' := RangeLens(ranges), RangeLens(ranges + [r]);
    assert l' == l + [r.physical] && l'[..|l|] == l;
    forall i | 0 <= i < |ranges| + 1 ensures (ranges + [r])[i].rowsBefore == Start(l', i) {
      assert l'[..i] == l[..i];
      assert l[..|l|] == l;
    }
  }

  /** The ranges of these new fragments: end to end, one for each that holds rows. */
  ghost predicate RangesOf(ds: seq<Digest>, ranges: seq<NewRange>) {
    && EndToEnd(ranges) && Sum(RangeLens(ranges)) == Sum(Rows(ds))
    && (forall r :: r in ranges ==> r.physical > 0 && Digest(r.fragment, r.physical) in ds)
    && (forall d :: d in ds && d.physical > 0 ==>
        exists r :: r in ranges && r.fragment == d.id && r.physical == d.physical)
  }

  lemma RowsPush(ds: seq<Digest>, d: Digest)
    ensures Sum(Rows(ds + [d])) == Sum(Rows(ds)) + d.physical
  {
    assert Rows(ds + [d])[..|ds|] == Rows(ds);
  }

  lemma RangesPush(ds: seq<Digest>, ranges: seq<NewRange>, d: Digest)
    requires RangesOf(ds, ranges)
    ensures d.physical != 0 ==> RangesOf(ds + [d], ranges + [NewRange(d.id, Sum(RangeLens(ranges)), d.physical)])
    ensures d.physical == 0 ==> RangesOf(ds + [d], ranges)
  {
    hide EndToEnd, Sum, RangeLens, Rows;
    RowsPush(ds, d);
    if d.physical != 0 {
      var r := NewRange(d.id, Sum(RangeLens(ranges)), d.physical);
      PushRange(ranges, r);
      assert r in ranges + [r];
      forall x | x in ds + [d] && x.physical > 0
        ensures exists y :: y in ranges + [r] && y.fragment == x.id && y.physical == x.physical
      {
        if x in ds {
          var y :| y in ranges && y.fragment == x.id && y.physical == x.physical;
          assert y in ranges + [r];
        }
      }
    }
  }

  /** The new fragments of a group, empty ones dropped. */
  method BuildRanges(newFrags: seq<Digest>) returns (ranges: seq<NewRange>, total: nat)
    ensures RangesOf(newFrags, ranges) && total == Sum(Rows(newFrags))
  {
    hide Sum;
    ranges, total := [], 0;
    assert Sum([]) == 0 by { SumEmpty(); }
    assert RangeLens([]) == [] && Rows([]) == [];
    for k := 0 to |newFrags|
      invariant RangesOf(newFrags[..k], ranges) && total == Sum(RangeLens(ranges))
    {
      hide RangesOf;
      var d := newFrags[k];
      assert newFrags[..k + 1] == newFrags[..k] + [d];
      RangesPush(newFrags[..k], ranges, d);
      if d.physical != 0 {
        RangesTotal(newFrags[..k], ranges);
        RangesTotal(newFrags[..k + 1], ranges + [NewRange(d.id, total, d.physical)]);
        RowsPush(newFrags[..k], d);
        ranges, total := ranges + [NewRange(d.id, total, d.physical)], total + d.physical;
      }
    }
    assert newFrags[..|newFrags|] == newFrags;
  }

  lemma SumEmpty()
    ensures Sum([]) == 0
  {
  }

  lemma RangesTotal(ds: seq<Digest>, ranges: seq<NewRange>)
    requires RangesOf(ds, ranges)
    ensures Sum(RangeLens(ranges)) == Sum(Rows(ds))
  {
  }

  // ---- one group -----------------------------------------------------------------------------------

  /** What an accepted old fragment becomes. */
  ghost function OldFor(rg: RawGroup, gi: nat, i: nat): OldFragment
    requires i < |rg.oldFrags|
  {
    OldFragment(gi, Start(RawLens(rg), i), rg.oldFrags[i].physical, KeptOf(rg.changed, rg.oldFrags[i].id))
  }

  /** The first k old fragments of the group are in, the fragments of earlier groups as they were. */
  ghost predicate Added(rg: RawGroup, gi: nat, k: nat, before: map<nat, OldFragment>, frags: map<nat, OldFragment>) {
    && k <= |rg.oldFrags|
    && frags.Keys == before.Keys + Members(Ids(rg.oldFrags[..k]))
    && (forall id :: id in before ==> id in frags && frags[id] == before[id])
    && (forall i :: 0 <= i < k ==> rg.oldFrags[i].id in frags && frags[rg.oldFrags[i].id] == OldFor(rg, gi, i))
  }

  lemma AddOne(rg: RawGroup, gi: nat, k: nat, before: map<nat, OldFragment>, frags: map<nat, OldFragment>)
    requires Added(rg, gi, k, before, frags) && k < |rg.oldFrags| && rg.oldFrags[k].id !in frags
    ensures Added(rg, gi, k + 1, before, frags[rg.oldFrags[k].id := OldFor(rg, gi, k)])
  {
    hide Sum, KeptOf, OldFor, Members;
    var ids := Ids(rg.oldFrags[..k]);
    assert Ids(rg.oldFrags[..k + 1]) == ids + [rg.oldFrags[k].id];
    MembersPush(ids, rg.oldFrags[k].id);
    forall i | 0 <= i < k ensures rg.oldFrags[i].id != rg.oldFrags[k].id { }
  }

  ghost predicate AllInside(rg: RawGroup) {
    forall a :: a in rg.changed ==> a / U32 in Ids(rg.oldFrags)
  }

  /** Nothing is left over once the rows of the old fragments are taken out exactly when every row was in one. */
  lemma LeftOver(rg: RawGroup, kept: map<nat, seq<nat>>)
    requires forall id :: id in kept <==> KeptOf(rg.changed, id) != []
    ensures kept.Keys <= Members(Ids(rg.oldFrags)) <==> AllInside(rg)
  {
    forall a | a in rg.changed ensures a / U32 in kept {
      KeptOfMembers(rg.changed, a / U32);
      assert AddressOf(RowOf(a)) == a;
      assert a % U32 in KeptOf(rg.changed, a / U32);
    }
    forall id | id in kept ensures exists a :: a in rg.changed && a / U32 == id {
      KeptOfMembers(rg.changed, id);
      var o := KeptOf(rg.changed, id)[0];
      assert o in KeptOf(rg.changed, id);
      assert AddressOf(Row(id, o)) / U32 == id;
    }
    if AllInside(rg) {
      forall id | id in kept ensures id in Members(Ids(rg.oldFrags)) {
        var a :| a in rg.changed && a / U32 == id;
      }
    }
  }

  ghost predicate OldsAccepted(rg: RawGroup, before: map<nat, OldFragment>) {
    Distinct(Ids(rg.oldFrags)) && forall d :: d in rg.oldFrags ==> OldAccepted(rg, d, before)
  }

  lemma AddedNone(rg: RawGroup, gi: nat, before: map<nat, OldFragment>)
    ensures Added(rg, gi, 0, before, before) && AcceptedTo(rg, 0, before)
  {
    assert Ids(rg.oldFrags[..0]) == [];
  }

  lemma AddedKeys(rg: RawGroup, gi: nat, k: nat, before: map<nat, OldFragment>, frags: map<nat, OldFragment>)
    requires Added(rg, gi, k, before, frags)
    ensures frags.Keys == before.Keys + Members(Ids(rg.oldFrags[..k]))
  {
  }

  ghost predicate AcceptedTo(rg: RawGroup, k: nat, before: map<nat, OldFragment>) {
    k <= |rg.oldFrags| && forall i :: 0 <= i < k ==> OldAccepted(rg, rg.oldFrags[i], before)
  }

  lemma AcceptOne(rg: RawGroup, k: nat, before: map<nat, OldFragment>)
    requires AcceptedTo(rg, k, before) && k < |rg.oldFrags|
    ensures var d := rg.oldFrags[k];
            if d.id !in before && LastInside(KeptOf(rg.changed, d.id), d.physical)
            then AcceptedTo(rg, k + 1, before) else !OldsAccepted(rg, before)
  {
    assert rg.oldFrags[k] in rg.oldFrags;
  }

  lemma AcceptedAll(rg: RawGroup, before: map<nat, OldFragment>)
    requires AcceptedTo(rg, |rg.oldFrags|, before) && Distinct(Ids(rg.oldFrags))
    ensures OldsAccepted(rg, before)
  {
  }

  lemma NotDistinct(rg: RawGroup, before: map<nat, OldFragment>)
    ensures !Distinct(Ids(rg.oldFrags)) ==> !OldsAccepted(rg, before)
  {
  }

  lemma DistinctEmpty()
    ensures Distinct<nat>([])
  {
  }

  lemma IdsPush(ds: seq<Digest>, k: nat)
    requires k < |ds| && Distinct(Ids(ds[..k]))
    ensures Members(Ids(ds[..k + 1])) == Members(Ids(ds[..k])) + {ds[k].id}
    ensures ds[k].id !in Members(Ids(ds[..k])) ==> Distinct(Ids(ds[..k + 1]))
    ensures ds[k].id in Members(Ids(ds[..k])) ==> !Distinct(Ids(ds))
  {
    var a := Ids(ds[..k]);
    assert Ids(ds[..k + 1]) == a + [ds[k].id];
    MembersPush(a, ds[k].id);
    if ds[k].id in Members(a) {
      var i :| 0 <= i < |a| && a[i] == ds[k].id;
      assert Ids(ds)[i] == Ids(ds)[k];
    }
  }

  /** kept is `all` with the fragments seen taken out. */
  ghost predicate Remaining(all: map<nat, seq<nat>>, seen: set<nat>, kept: map<nat, seq<nat>>) {
    kept.Keys == all.Keys - seen && forall id :: id in kept ==> kept[id] == all[id]
  }

  lemma NoneLeft(all: map<nat, seq<nat>>, seen: set<nat>, kept: map<nat, seq<nat>>)
    requires Remaining(all, seen, kept)
    ensures kept == map[] <==> all.Keys <= seen
  {
    if all.Keys <= seen {
      assert kept.Keys == {};
    }
    if kept == map[] {
      assert all.Keys - seen == {};
    }
  }

  /** The old fragments of a group, each with its rows that were rewritten and how many came before them. */
  method AddOldFragments(rg: RawGroup, gi: nat, before: map<nat, OldFragment>)
    returns (ok: bool, frags: map<nat, OldFragment>, rewritten: nat, leftOver: bool)
    ensures ok <==> OldsAccepted(rg, before)
    ensures ok ==> Added(rg, gi, |rg.oldFrags|, before, frags) && rewritten == Sum(RawLens(rg))
                   && (leftOver <==> !AllInside(rg))
  {
    hide Sum, KeptOf, Distinct, Added, AcceptedTo, OldsAccepted, AllInside, Members;
    var kept: map<nat, seq<nat>> := CollectKept(rg.changed);
    ghost var all := kept;
    LeftOver(rg, kept);
    frags, rewritten, leftOver := before, 0, false;
    var seen: set<nat> := {};
    AddedNone(rg, gi, before);
    assert Ids([]) == [] && RawLens(rg)[..0] == [];
    SumEmpty();
    DistinctEmpty();
    MembersEmpty();
    for k := 0 to |rg.oldFrags|
      invariant Added(rg, gi, k, before, frags) && rewritten == Start(RawLens(rg), k)
      invariant seen == Members(Ids(rg.oldFrags[..k])) && Distinct(Ids(rg.oldFrags[..k]))
      invariant AcceptedTo(rg, k, before)
      invariant Remaining(all, seen, kept)
    {
      var d := rg.oldFrags[k];
      NotDistinct(rg, before);
      IdsPush(rg.oldFrags, k);
      if d.id in seen {
        return false, frags, rewritten, leftOver;
      }
      var rows := if d.id in kept then kept[d.id] else [];
      assert rows == KeptOf(rg.changed, d.id);
      AcceptOne(rg, k, before);
      if rows != [] && rows[|rows| - 1] >= d.physical {
        return false, frags, rewritten, leftOver;
      }
      AddedKeys(rg, gi, k, before, frags);
      if d.id in frags {
        return false, frags, rewritten, leftOver;
      }
      AddOne(rg, gi, k, before, frags);
      StartNext(RawLens(rg), k);
      frags := frags[d.id := OldFragment(gi, rewritten, d.physical, rows)];
      rewritten := rewritten + |rows|;
      kept, seen := map id | id in kept && id != d.id :: kept[id], seen + {d.id};
    }
    assert rg.oldFrags[..|rg.oldFrags|] == rg.oldFrags && RawLens(rg)[..|rg.oldFrags|] == RawLens(rg);
    AcceptedAll(rg, before);
    NoneLeft(all, seen, kept);
    leftOver := kept != map[];
    ok := true;
  }

  /** The group is built as recorded. */
  ghost predicate BuiltGroup(rg: RawGroup, g: Group, gi: nat, frags: map<nat, OldFragment>) {
    && g.oldIds == Ids(rg.oldFrags) && g.newIds == Ids(rg.newFrags) && RangesOf(rg.newFrags, g.newRanges)
    && (forall i :: 0 <= i < |rg.oldFrags| ==>
        rg.oldFrags[i].id in frags && frags[rg.oldFrags[i].id] == OldFor(rg, gi, i))
  }

  lemma BuiltIsOk(rg: RawGroup, g: Group, gi: nat, before: map<nat, OldFragment>, frags: map<nat, OldFragment>)
    requires Added(rg, gi, |rg.oldFrags|, before, frags) && Accepted(rg, before)
    requires g.oldIds == Ids(rg.oldFrags) && g.newIds == Ids(rg.newFrags) && RangesOf(rg.newFrags, g.newRanges)
    ensures BuiltGroup(rg, g, gi, frags) && GroupOk(g, gi, frags)
  {
    hide KeptOf, Sum;
    forall id | id in g.oldIds ensures id in frags && frags[id].group == gi {
      var i :| 0 <= i < |g.oldIds| && g.oldIds[i] == id;
      assert frags[rg.oldFrags[i].id] == OldFor(rg, gi, i);
    }
    assert KeptLens(g, frags) == RawLens(rg);
    assert NewLens(g) == RangeLens(g.newRanges);
    forall i | 0 <= i < |g.newRanges| ensures g.newRanges[i].fragment in g.newIds {
      var r := g.newRanges[i];
      assert r in g.newRanges;
      var j :| 0 <= j < |rg.newFrags| && rg.newFrags[j] == Digest(r.fragment, r.physical);
      assert g.newIds[j] == r.fragment;
    }
  }

  /** Fragments of other ids added to the map change nothing for a group. */
  lemma GroupFrame(g: Group, gi: nat, before: map<nat, OldFragment>, frags: map<nat, OldFragment>)
    requires GroupOk(g, gi, before) && forall id :: id in before ==> id in frags && frags[id] == before[id]
    ensures GroupOk(g, gi, frags)
  {
    assert KeptLens(g, frags) == KeptLens(g, before);
  }

  lemma AddedLaid(rg: RawGroup, groups: seq<Group>, g: Group, before: map<nat, OldFragment>,
                  frags: map<nat, OldFragment>)
    requires Laid(Step(groups, before)) && g.oldIds == Ids(rg.oldFrags) && GroupOk(g, |groups|, frags)
    requires Added(rg, |groups|, |rg.oldFrags|, before, frags)
    ensures Laid(Step(groups + [g], frags))
  {
    hide GroupOk, Sum, KeptOf;
    var s := Step(groups + [g], frags);
    forall gi | 0 <= gi < |s.groups| ensures GroupOk(s.groups[gi], gi, s.frags) {
      if gi < |groups| {
        assert GroupOk(groups[gi], gi, before);
        GroupFrame(groups[gi], gi, before, frags);
      }
    }
    forall id | id in frags ensures frags[id].group < |s.groups| && id in s.groups[frags[id].group].oldIds {
      if id !in before {
        assert rg.oldFrags[..|rg.oldFrags|] == rg.oldFrags;
        InMembers(Ids(rg.oldFrags), id);
        var i :| 0 <= i < |rg.oldFrags| && Ids(rg.oldFrags)[i] == id;
        assert frags[rg.oldFrags[i].id] == OldFor(rg, |groups|, i);
      }
    }
  }

  method BuildGroup(rg: RawGroup, groups: seq<Group>, before: map<nat, OldFragment>)
    returns (ok: bool, g: Group, frags: map<nat, OldFragment>)
    requires Laid(Step(groups, before))
    ensures ok <==> Accepted(rg, before)
    ensures ok ==> Added(rg, |groups|, |rg.oldFrags|, before, frags) && BuiltGroup(rg, g, |groups|, frags)
                   && Laid(Step(groups + [g], frags))
  {
    hide Sum, Laid, Added, RangesOf, BuiltGroup, GroupOk;
    var ranges, total := BuildRanges(rg.newFrags);
    var rewritten, leftOver;
    g := Group(ranges, Ids(rg.oldFrags), Ids(rg.newFrags));
    ok, frags, rewritten, leftOver := AddOldFragments(rg, |groups|, before);
    ok := ok && !leftOver && rewritten == total;
    if ok {
      BuiltIsOk(rg, g, |groups|, before, frags);
      AddedLaid(rg, groups, g, before, frags);
    }
  }

  // ---- one version ---------------------------------------------------------------------------------

  /** The fragments these groups rewrote. */
  ghost function OldIdsOf(groups: seq<RawGroup>): set<nat> {
    if groups == [] then {} else OldIdsOf(groups[..|groups| - 1]) + Members(Ids(groups[|groups| - 1].oldFrags))
  }

  /** Every group is accepted after the ones before it. */
  ghost predicate VersionAccepted(groups: seq<RawGroup>) {
    forall k :: 0 <= k < |groups| ==>
        Accepted(groups[k], map[]) && Members(Ids(groups[k].oldFrags)) !! OldIdsOf(groups[..k])
  }

  lemma AcceptedApart(rg: RawGroup, frags: map<nat, OldFragment>)
    ensures Accepted(rg, frags) <==> Accepted(rg, map[]) && Members(Ids(rg.oldFrags)) !! frags.Keys
  {
    hide Sum, KeptOf;
    forall d | d in rg.oldFrags ensures d.id in Members(Ids(rg.oldFrags)) {
      var i :| 0 <= i < |rg.oldFrags| && rg.oldFrags[i] == d;
      assert Ids(rg.oldFrags)[i] == d.id;
    }
    forall id | id in Members(Ids(rg.oldFrags)) ensures exists d :: d in rg.oldFrags && d.id == id {
      var i :| 0 <= i < |rg.oldFrags| && Ids(rg.oldFrags)[i] == id;
      assert rg.oldFrags[i] in rg.oldFrags;
    }
  }

  lemma VersionMore(groups: seq<RawGroup>, k: nat, frags: map<nat, OldFragment>)
    requires k < |groups| && VersionAccepted(groups[..k]) && frags.Keys == OldIdsOf(groups[..k])
    ensures if Accepted(groups[k], frags) then VersionAccepted(groups[..k + 1]) else !VersionAccepted(groups)
    ensures OldIdsOf(groups[..k + 1]) == OldIdsOf(groups[..k]) + Members(Ids(groups[k].oldFrags))
  {
    hide Accepted;
    AcceptedApart(groups[k], frags);
    assert groups[..k + 1][..k] == groups[..k];
    forall i | 0 <= i < k
      ensures Accepted(groups[i], map[]) && Members(Ids(groups[i].oldFrags)) !! OldIdsOf(groups[..k + 1][..i])
    {
      assert groups[..k][i] == groups[i] && groups[..k][..i] == groups[..k + 1][..i];
    }
  }

  ghost predicate BuiltFrom(groups: seq<RawGroup>, k: nat, built: seq<Group>, frags: map<nat, OldFragment>) {
    k <= |groups| && |built| == k && forall gi :: 0 <= gi < k ==> BuiltGroup(groups[gi], built[gi], gi, frags)
  }

  lemma BuiltMore(groups: seq<RawGroup>, k: nat, built: seq<Group>, before: map<nat, OldFragment>, g: Group,
                  frags: map<nat, OldFragment>)
    requires BuiltFrom(groups, k, built, before) && k < |groups|
    requires Added(groups[k], k, |groups[k].oldFrags|, before, frags) && BuiltGroup(groups[k], g, k, frags)
    ensures BuiltFrom(groups, k + 1, built + [g], frags)
    ensures frags.Keys == before.Keys + Members(Ids(groups[k].oldFrags))
  {
    hide RangesOf, Sum, KeptOf;
    assert groups[k].oldFrags[..|groups[k].oldFrags|] == groups[k].oldFrags;
    forall gi | 0 <= gi < k ensures BuiltGroup(groups[gi], built[gi], gi, frags) {
      assert BuiltGroup(groups[gi], built[gi], gi, before);
    }
  }

  /** The rows of every old fragment are recorded ascending and inside it. */
  ghost predicate InOrder(rg: RawGroup) {
    forall d :: d in rg.oldFrags ==> KeptOk(KeptOf(rg.changed, d.id), d.physical)
  }

  ghost predicate AllInOrder(groups: seq<RawGroup>) {
    forall rg :: rg in groups ==> InOrder(rg)
  }

  /** `build_step`: a version is accepted exactly when its groups are. What is built records it and can be
      resolved through; every rewritten row is found exactly when the rows are recorded in order. */
  method BuildStep(groups: seq<RawGroup>) returns (r: Option<Step>)
    ensures r.Some? <==> VersionAccepted(groups)
    ensures r.Some? ==> Laid(r.value) && BuiltFrom(groups, |groups|, r.value.groups, r.value.frags)
    ensures r.Some? ==> r.value.frags.Keys == OldIdsOf(groups)
    ensures r.Some? ==> (StepOk(r.value) <==> AllInOrder(groups))
  {
    hide Laid, Accepted, BuiltFrom, BuiltGroup, Added, Members, VersionAccepted, StepOk, AllInOrder;
    var built: seq<Group> := [];
    var frags: map<nat, OldFragment> := map[];
    NothingBuilt(groups);
    for k := 0 to |groups|
      invariant Laid(Step(built, frags)) && BuiltFrom(groups, k, built, frags)
      invariant |built| == k && frags.Keys == OldIdsOf(groups[..k])
      invariant VersionAccepted(groups[..k])
    {
      assert groups[..k + 1][..k] == groups[..k];
      VersionMore(groups, k, frags);
      var ok, g, frags' := BuildGroup(groups[k], built, frags);
      if !ok {
        return None;
      }
      BuiltMore(groups, k, built, frags, g, frags');
      built, frags := built + [g], frags';
    }
    assert groups[..|groups|] == groups;
    r := Some(Step(built, frags));
    BuiltInOrder(groups, r.value);
  }

  lemma NothingBuilt(groups: seq<RawGroup>)
    ensures Laid(Step([], map[])) && BuiltFrom(groups, 0, [], map[]) && VersionAccepted(groups[..0])
  {
  }

  lemma {:induction false} OldIdListed(groups: seq<RawGroup>, id: nat) returns (gi: nat, i: nat)
    requires id in OldIdsOf(groups)
    ensures gi < |groups| && i < |groups[gi].oldFrags| && groups[gi].oldFrags[i].id == id
    decreases |groups|
  {
    var n := |groups| - 1;
    if id in OldIdsOf(groups[..n]) {
      gi, i := OldIdListed(groups[..n], id);
    } else {
      InMembers(Ids(groups[n].oldFrags), id);
      gi := n;
      i :| 0 <= i < |Ids(groups[n].oldFrags)| && Ids(groups[n].oldFrags)[i] == id;
    }
  }

  lemma BuiltAs(groups: seq<RawGroup>, s: Step, gi: nat, i: nat)
    requires BuiltFrom(groups, |groups|, s.groups, s.frags) && gi < |groups| && i < |groups[gi].oldFrags|
    ensures var d := groups[gi].oldFrags[i];
            d.id in s.frags && s.frags[d.id].kept == KeptOf(groups[gi].changed, d.id)
            && s.frags[d.id].physical == d.physical
  {
    hide RangesOf, Sum, KeptOf;
    assert BuiltGroup(groups[gi], s.groups[gi], gi, s.frags);
  }

  lemma BuiltInOrder(groups: seq<RawGroup>, s: Step)
    requires Laid(s) && BuiltFrom(groups, |groups|, s.groups, s.frags) && s.frags.Keys == OldIdsOf(groups)
    ensures StepOk(s) <==> AllInOrder(groups)
  {
    hide Laid, BuiltFrom, KeptOf, KeptOk, OldIdsOf;
    if AllInOrder(groups) {
      forall id | id in s.frags ensures KeptOk(s.frags[id].kept, s.frags[id].physical) {
        var gi, i := OldIdListed(groups, id);
        BuiltAs(groups, s, gi, i);
        assert groups[gi] in groups && groups[gi].oldFrags[i] in groups[gi].oldFrags;
      }
    }
    if StepOk(s) {
      forall rg, d | rg in groups && d in rg.oldFrags ensures KeptOk(KeptOf(rg.changed, d.id), d.physical) {
        var gi :| 0 <= gi < |groups| && groups[gi] == rg;
        var i :| 0 <= i < |rg.oldFrags| && rg.oldFrags[i] == d;
        BuiltAs(groups, s, gi, i);
      }
    }
  }

  /** Ascending addresses record every fragment's rows in order: an accepted group is then in order. */
  lemma AscendingInOrder(rg: RawGroup, frags: map<nat, OldFragment>)
    requires Ascending(rg.changed) && Accepted(rg, frags)
    ensures InOrder(rg)
  {
    hide Sum, KeptOf;
    forall d | d in rg.oldFrags ensures KeptOk(KeptOf(rg.changed, d.id), d.physical) {
      assert OldAccepted(rg, d, frags);
      KeptOfAscending(rg.changed, d.id);
    }
  }

  /** Two rows of fragment 5 recorded in the wrong order, rewritten into fragment 9. */
  function Unordered(physical: nat): RawGroup {
    RawGroup([5 * U32 + 1, 5 * U32], [Digest(5, physical)], [Digest(9, 2)])
  }

  function UnorderedStep(physical: nat): Step {
    Step([Group([NewRange(9, 0, 2)], [5], [9])], map[5 := OldFragment(0, 0, physical, [1, 0])])
  }

  lemma KeptPush(changed: seq<nat>, a: nat, id: nat)
    ensures KeptOf(changed + [a], id) == KeptOf(changed, id) + if a / U32 == id then [a % U32] else []
  {
    assert (changed + [a])[..|changed|] == changed;
  }

  lemma UnorderedKept(id: nat)
    ensures KeptOf([5 * U32 + 1, 5 * U32], id) == if id == 5 then [1, 0] else []
  {
    hide KeptOf;
    KeptNone(id);
    KeptPush([], 5 * U32 + 1, id);
    KeptPush([5 * U32 + 1], 5 * U32, id);
    assert [] + [5 * U32 + 1] == [5 * U32 + 1] && [5 * U32 + 1] + [5 * U32] == [5 * U32 + 1, 5 * U32];
    assert (5 * U32 + 1) / U32 == 5 && (5 * U32 + 1) % U32 == 1 && 5 * U32 / U32 == 5 && 5 * U32 % U32 == 0;
  }

  lemma KeptNone(id: nat)
    ensures KeptOf([], id) == []
  {
  }

  /** They are accepted, with one row in the fragment as with two. */
  lemma UnorderedAccepted(physical: nat)
    requires physical >= 1
    ensures VersionAccepted([Unordered(physical)])
  {
    hide KeptOf;
    var rg := Unordered(physical);
    UnorderedKept(5);
    assert RawLens(rg) == [2] && Rows(rg.newFrags) == [2];
    forall a | a in rg.changed ensures a / U32 in Ids(rg.oldFrags) {
      assert Ids(rg.oldFrags)[0] == 5;
      assert (5 * U32 + 1) / U32 == 5;
    }
    assert OldIdsOf([rg][..0]) == {};
  }

  lemma UnorderedBuilt(physical: nat)
    requires physical >= 1
    ensures Laid(UnorderedStep(physical))
    ensures BuiltFrom([Unordered(physical)], 1, UnorderedStep(physical).groups, UnorderedStep(physical).frags)
  {
    hide KeptOf;
    var rg, s := Unordered(physical), UnorderedStep(physical);
    UnorderedKept(5);
    var g := s.groups[0];
    assert KeptLens(g, s.frags) == [2] && NewLens(g) == [2] && RawLens(rg) == [2];
    assert Ids(rg.oldFrags) == [5] && Ids(rg.newFrags) == [9];
    assert RangesOf(rg.newFrags, g.newRanges) by {
      assert RangeLens(g.newRanges) == [2] && Rows(rg.newFrags) == [2];
      assert g.newRanges[0] in g.newRanges;
    }
  }

  /** And then lost: neither row is found, so both read as deleted; with one row in the fragment, a row outside
      it passes as one that was never moved. */
  lemma UnorderedLost()
    ensures Laid(UnorderedStep(2)) && Move(UnorderedStep(2), Row(5, 0)) == Gone
            && Move(UnorderedStep(2), Row(5, 1)) == Gone
    ensures Laid(UnorderedStep(1)) && Move(UnorderedStep(1), Row(5, 1)) == At(Row(5, 1))
  {
    hide Laid, LowerBound, Target;
    UnorderedBuilt(2);
    UnorderedBuilt(1);
    UnorderedMissed();
  }

  lemma UnorderedMissed()
    ensures LowerBound([1, 0], 0) == 0 && LowerBound([1, 0], 1) == 2
  {
    assert Halving([1, 0], 0, 0, 1) == 0;
  }
}
