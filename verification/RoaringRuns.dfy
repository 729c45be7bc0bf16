/** Roaring bitmaps with run containers, by how the format writes them (the cookie 12347 of the Roaring bitmap format
    specification): src/base/roaring_bitmap.cpp writes none, and reads them. */
module RoaringRuns {
  import opened Options
  import opened Order
  import opened Bytes
  import opened Roaring

  /** The values from `start` on, and so many more. */
  datatype Run = Run(start: nat, more: nat)

  function LowsOfRun(run: Run): (l: seq<nat>)
    ensures |l| == run.more + 1 && forall i :: 0 <= i < |l| ==> l[i] == run.start + i
  {
    seq(run.more + 1, i requires 0 <= i => run.start + i)
  }

  function LowsOfRuns(runs: seq<Run>): seq<nat> {
    if runs == [] then [] else LowsOfRun(runs[0]) + LowsOfRuns(runs[1..])
  }

  /** Each run is after the one before, and in 16 bits. */
  ghost predicate RunsOk(runs: seq<Run>, prevEnd: int)
    decreases |runs|
  {
    runs == []
    || (runs[0].start > prevEnd && runs[0].start + runs[0].more < U16
        && RunsOk(runs[1..], runs[0].start + runs[0].more))
  }

  function RunBytes(runs: seq<Run>): seq<byte> {
    if runs == [] then [] else Put16(runs[0].start) + Put16(runs[0].more) + RunBytes(runs[1..])
  }

  lemma JoinedPlus(high: nat, a: seq<nat>, b: seq<nat>)
    ensures Joined(Container(high, a + b), U16) == Joined(Container(high, a), U16) + Joined(Container(high, b), U16)
  {
    hide Whole;
  }

  lemma RunJoined(high: nat, run: Run)
    ensures RunValues(high, run.start, run.start + run.more) == Joined(Container(high, LowsOfRun(run)), U16)
  {
  }

  lemma {:induction false} RunsRead(runs: seq<Run>, high: nat, prevEnd: int, rest: seq<byte>)
    requires RunsOk(runs, prevEnd)
    ensures ReadRuns(RunBytes(runs) + rest, |runs|, high, prevEnd)
         == Some((Joined(Container(high, LowsOfRuns(runs)), U16), rest))
    decreases |runs|
  {
    hide Get16, Put16, RunValues, LowsOfRun, Joined;
    var b := RunBytes(runs) + rest;
    if runs == [] {
      assert b == rest;
      NoneJoined(high);
    } else {
      var run, more := runs[0], RunBytes(runs[1..]) + rest;
      assert b == Put16(run.start) + (Put16(run.more) + more);
      TwoNumbers(run.start, run.more, more);
      RunsRead(runs[1..], high, run.start + run.more, rest);
      RunJoined(high, run);
      JoinedPlus(high, LowsOfRun(run), LowsOfRuns(runs[1..]));
    }
  }

  lemma NoneJoined(high: nat)
    ensures Joined(Container(high, []), U16) == []
  {
  }

  // ---- a container, plain or by its runs -----------------------------------------------------------

  datatype Stored = Stored(c: Container, runs: Option<seq<Run>>)

  ghost predicate StoredOk(s: Stored) {
    && ContainerOk(s.c)
    && (s.runs.Some? ==> |s.runs.value| < U16 && RunsOk(s.runs.value, -1) && LowsOfRuns(s.runs.value) == s.c.lows)
  }

  ghost predicate AllStored(ss: seq<Stored>) {
    forall i :: 0 <= i < |ss| ==> StoredOk(ss[i])
  }

  ghost function StoredBody(s: Stored): seq<byte>
    requires StoredOk(s)
  {
    if s.runs.Some? then Put16(|s.runs.value|) + RunBytes(s.runs.value) else Body(s.c)
  }

  ghost function StoredBodies(ss: seq<Stored>): seq<byte>
    requires AllStored(ss)
  {
    if ss == [] then [] else StoredBody(ss[0]) + StoredBodies(ss[1..])
  }

  function ContainersOf(ss: seq<Stored>): (cs: seq<Container>)
    ensures |cs| == |ss| && forall i :: 0 <= i < |cs| ==> cs[i] == ss[i].c
  {
    seq(|ss|, i requires 0 <= i < |ss| => ss[i].c)
  }

  lemma StoredRead(s: Stored, rest: seq<byte>)
    requires StoredOk(s)
    ensures ReadContainer(Header(s.c.high, |s.c.lows|), s.runs.Some?, StoredBody(s) + rest)
         == Some((Joined(s.c, U16), rest))
  {
    hide Get16, Put16, Body, ReadRuns, ReadArray, BitValues, Joined, RunBytes, LowsOfRuns, RunsOk;
    if s.runs.Some? {
      var runs := s.runs.value;
      var tail := RunBytes(runs) + rest;
      assert StoredBody(s) + rest == Put16(|runs|) + tail;
      Get16Put(|runs|, tail);
      RunsRead(runs, s.c.high, -1, rest);
    } else {
      ContainerRead(s.c, rest);
    }
  }

  /** The flags say of every container from k on whether it is stored by its runs. */
  ghost predicate Flagged(flags: seq<byte>, k: nat, ss: seq<Stored>) {
    forall i :: 0 <= i < |ss| ==> (IsRun(flags, k + i) <==> ss[i].runs.Some?)
  }

  lemma {:induction false} AllStoredRead(ss: seq<Stored>, flags: seq<byte>, k: nat, rest: seq<byte>)
    requires AllStored(ss) && Flagged(flags, k, ss)
    ensures ReadContainers(HeadersOf(ContainersOf(ss)), flags, k, StoredBodies(ss) + rest)
         == Some((AllJoined(ContainersOf(ss), U16), rest))
    decreases |ss|
  {
    hide ReadContainer, StoredBody, Joined, IsRun, StoredOk;
    if ss == [] {
      assert StoredBodies(ss) + rest == rest;
    } else {
      var s, more := ss[0], ss[1..];
      assert StoredOk(s);
      assert IsRun(flags, k + 0) <==> s.runs.Some?;
      StoredRead(s, StoredBodies(more) + rest);
      assert StoredBodies(ss) + rest == StoredBody(s) + (StoredBodies(more) + rest);
      FlaggedTail(flags, k, ss);
      AllStoredRead(more, flags, k + 1, rest);
      assert ContainersOf(ss)[1..] == ContainersOf(more);
      assert HeadersOf(ContainersOf(ss))[1..] == HeadersOf(ContainersOf(more));
      JoinedSize(s.c);
    }
  }

  lemma FlaggedTail(flags: seq<byte>, k: nat, ss: seq<Stored>)
    requires ss != [] && Flagged(flags, k, ss)
    ensures Flagged(flags, k + 1, ss[1..])
  {
    hide IsRun;
    forall i | 0 <= i < |ss[1..]| ensures IsRun(flags, k + 1 + i) <==> ss[1..][i].runs.Some? {
      assert ss[1..][i] == ss[i + 1] && k + 1 + i == k + (i + 1);
    }
  }

  // ---- the whole bitmap ----------------------------------------------------------------------------

  /** A bitmap with the cookie for runs: the number of containers in the cookie's high half, a flag bit for each,
      their headers, offsets (not looked at) when there are four containers or more, and the containers. */
  ghost function RunForm(ss: seq<Stored>, flags: seq<byte>, offsets: seq<byte>): seq<byte>
    requires AllStored(ss) && ss != []
  {
    HeadersThere(ss);
    Put32(12347 + 65536 * (|ss| - 1)) + flags + HeaderBytes(ContainersOf(ss)) + offsets + StoredBodies(ss)
  }

  lemma HeadersThere(ss: seq<Stored>)
    requires AllStored(ss)
    ensures ContainersOk(ContainersOf(ss)) && forall i :: 0 <= i < |ss| ==> |ContainersOf(ss)[i].lows| >= 1
  {
    forall i | 0 <= i < |ss| ensures ContainerOk(ContainersOf(ss)[i]) { assert StoredOk(ss[i]); }
  }

  /** The lengths the format asks for. */
  ghost predicate FormOk(ss: seq<Stored>, flags: seq<byte>, offsets: seq<byte>) {
    && 1 <= |ss| <= 65536 && |flags| == (|ss| + 7) / 8 && Flagged(flags, 0, ss)
    && |offsets| == if |ss| >= 4 then 4 * |ss| else 0
  }

  /** Ascending ids, cut into containers of which any are stored by their runs, are read back, whatever follows. */
  lemma RunFormRead(ids: seq<nat>, ss: seq<Stored>, flags: seq<byte>, offsets: seq<byte>, rest: seq<byte>)
    requires Encodable(ids) && AllStored(ss) && ContainersOf(ss) == Containers(ids, U16) && FormOk(ss, flags, offsets)
    ensures DecodePrefix(RunForm(ss, flags, offsets) + rest) == Some((ids, rest))
  {
    hide ReadBody, HeaderBytes, StoredBodies, Get32, Put32, AllJoined, Containers, AllStored, Flagged, Ascending, Below;
    ContainersAreOk(ids);
    JoinedBack(ids, U16);
    HeadersThere(ss);
    var n, cs := |ss|, ContainersOf(ss);
    var tail := HeaderBytes(cs) + offsets + StoredBodies(ss) + rest;
    var b := RunForm(ss, flags, offsets) + rest;
    assert b == Put32(12347 + 65536 * (n - 1)) + (flags + tail);
    Get32Put(12347 + 65536 * (n - 1), flags + tail);
    CookieParts(n);
    assert b[4..4 + |flags|] == flags && b[4 + |flags|..] == tail;
    RunBodyRead(ss, flags, offsets, rest);
  }

  lemma CookieParts(n: nat)
    requires 1 <= n <= 65536
    ensures var cookie := 12347 + 65536 * (n - 1);
            cookie < U32 && cookie != COOKIE_NO_RUNS && cookie % U16 == COOKIE && cookie / U16 + 1 == n
  {
  }

  lemma RunBodyRead(ss: seq<Stored>, flags: seq<byte>, offsets: seq<byte>, rest: seq<byte>)
    requires AllStored(ss) && FormOk(ss, flags, offsets) && HighsAscend(ContainersOf(ss), -1)
    requires ContainersOk(ContainersOf(ss))
    ensures ReadBody(|ss|, flags, |ss| >= 4, HeaderBytes(ContainersOf(ss)) + offsets + StoredBodies(ss) + rest)
         == Some((AllJoined(ContainersOf(ss), U16), rest))
  {
    hide ReadHeaders, ReadContainers, HeaderBytes, StoredBodies, HeadersOf, AllJoined, AllStored, Flagged, HighsAscend;
    var cs, body := ContainersOf(ss), StoredBodies(ss);
    HeadersRead(cs, -1, offsets + (body + rest));
    Regroup(HeaderBytes(cs), offsets, body, rest);
    AllStoredRead(ss, flags, 0, rest);
  }
}
