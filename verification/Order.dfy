/** Python's `sorted` on what the layering tools sort: node sets, node lists and lists of node lists. */
module Order {

  ghost predicate Ascending(s: seq<nat>) {
    forall i, j :: 0 <= i < j < |s| ==> s[i] < s[j]
  }

  lemma AscendingNone()
    ensures Ascending([])
  {
  }

  function Members(s: seq<nat>): set<nat> {
    set x | x in s
  }

  lemma AscendingNext(s: seq<nat>, x: nat)
    requires Ascending(s) && forall y :: y in Members(s) ==> y < x
    ensures Ascending(s + [x])
  {
    assert forall i :: 0 <= i < |s| ==> s[i] in Members(s);
  }

  lemma InMembers(s: seq<nat>, x: nat)
    ensures x in Members(s) <==> x in s
  {
  }

  lemma MembersEmpty()
    ensures Members([]) == {}
  {
  }

  lemma MembersPush(s: seq<nat>, x: nat)
    ensures Members(s + [x]) == Members(s) + {x}
  {
  }

  lemma MembersPlus(s: seq<nat>, t: seq<nat>)
    ensures Members(s + t) == Members(s) + Members(t)
  {
  }

  lemma MembersTail(s: seq<nat>, k: nat)
    requires Ascending(s) && k < |s|
    ensures s[k] in Members(s) && Members(s[k + 1..]) == Members(s[k..]) - {s[k]}
  {
    assert s[k..] == [s[k]] + s[k + 1..];
  }

  /** Taking the last of the first m elements of a list without duplicates. */
  lemma PopLast(s: seq<nat>, m: nat)
    requires Distinct(s) && 0 < m <= |s|
    ensures Members(s[..m - 1]) == Members(s[..m]) - {s[m - 1]}
    ensures Members(s[m - 1..]) == Members(s[m..]) + {s[m - 1]}
    ensures s[m - 1] !in Members(s[m..])
  {
    assert s[..m] == s[..m - 1] + [s[m - 1]];
    assert s[m - 1..] == [s[m - 1]] + s[m..];
  }

  ghost predicate IsLeast(s: set<nat>, m: nat) {
    m in s && forall x :: x in s ==> m <= x
  }

  lemma {:induction false} LeastExists(s: set<nat>) returns (m: nat)
    requires s != {}
    ensures IsLeast(s, m)
    decreases |s|
  {
    m :| m in s;
    var rest := s - {m};
    if rest == {} {
      assert s == {m};
    } else {
      var k := LeastExists(rest);
      assert forall y :: y in s ==> y == m || y in rest;
      if k < m { m := k; }
    }
  }

  /** `sorted(nodes)`: the members of a set, ascending. */
  function SortedSet(s: set<nat>): (r: seq<nat>)
    ensures Ascending(r)
    ensures Members(r) == s && |r| == |s|
  {
    if s == {} then []
    else
      assert exists m :: IsLeast(s, m) by { var m := LeastExists(s); }
      var m :| m in s && forall x :: x in s ==> m <= x;
      var rest := SortedSet(s - {m});
      PrependLeast(m, s, rest);
      [m] + rest
  }

  lemma PrependLeast(m: nat, s: set<nat>, rest: seq<nat>)
    requires IsLeast(s, m)
    requires Ascending(rest) && Members(rest) == s - {m} && |rest| == |s - {m}|
    ensures Ascending([m] + rest) && Members([m] + rest) == s && |[m] + rest| == |s|
  {
    var r := [m] + rest;
    forall j | 0 < j < |r| ensures m < r[j] {
      assert r[j] == rest[j - 1] && rest[j - 1] in Members(rest);
    }
    forall x ensures x in Members(r) <==> x in s {
      assert r[0] == m;
      if x in s && x != m { assert x in Members(rest); assert x in rest; }
      if x in r && x != m { assert x in Members(rest); }
    }
  }

  /** Two ascending lists with the same members are the same list. */
  lemma {:induction false} AscendingUnique(a: seq<nat>, b: seq<nat>)
    requires Ascending(a) && Ascending(b) && Members(a) == Members(b)
    ensures a == b
    decreases |a|
  {
    if a == [] {
      assert forall i :: 0 <= i < |b| ==> b[i] in Members(b);
    } else {
      assert a[0] in Members(a);
      assert b != [];
      assert b[0] in Members(b) && a[0] in Members(b) && b[0] in Members(a);
      assert a[0] == b[0];
      assert Members(a[1..]) == Members(a) - {a[0]};
      assert Members(b[1..]) == Members(b) - {b[0]};
      AscendingUnique(a[1..], b[1..]);
      assert a == [a[0]] + a[1..] && b == [b[0]] + b[1..];
    }
  }

  lemma {:induction false} AscendingSize(s: seq<nat>)
    requires Ascending(s)
    ensures |Members(s)| == |s|
    decreases |s|
  {
    if s != [] {
      AscendingSize(s[1..]);
      assert Members(s) == {s[0]} + Members(s[1..]);
      assert s[0] !in Members(s[1..]);
    }
  }

  /** Python's order on lists. */
  predicate LexLeq(a: seq<nat>, b: seq<nat>) {
    a == [] || (b != [] && (a[0] < b[0] || (a[0] == b[0] && LexLeq(a[1..], b[1..]))))
  }

  ghost predicate LexSorted(xs: seq<seq<nat>>) {
    forall i, j :: 0 <= i < j < |xs| ==> LexLeq(xs[i], xs[j])
  }

  lemma {:induction false} LexTotal(a: seq<nat>, b: seq<nat>)
    ensures LexLeq(a, b) || LexLeq(b, a)
    decreases |a|
  {
    if a != [] && b != [] && a[0] == b[0] { LexTotal(a[1..], b[1..]); }
  }

  lemma {:induction false} LexTransitive(a: seq<nat>, b: seq<nat>, c: seq<nat>)
    requires LexLeq(a, b) && LexLeq(b, c)
    ensures LexLeq(a, c)
    decreases |a|
  {
    if a != [] && a[0] == b[0] && b[0] == c[0] { LexTransitive(a[1..], b[1..], c[1..]); }
  }

  /** One insertion of `sorted` on a list of lists. */
  function InsertLex(x: seq<nat>, xs: seq<seq<nat>>): (r: seq<seq<nat>>)
    ensures multiset(r) == multiset(xs) + multiset{x}
  {
    if xs == [] then [x]
    else if LexLeq(x, xs[0]) then [x] + xs
    else
      assert xs == [xs[0]] + xs[1..];
      [xs[0]] + InsertLex(x, xs[1..])
  }

  /** `sorted(out)` on a list of lists. */
  function SortLex(xs: seq<seq<nat>>): (r: seq<seq<nat>>)
    ensures multiset(r) == multiset(xs)
  {
    if xs == [] then []
    else
      assert xs == [xs[0]] + xs[1..];
      InsertLex(xs[0], SortLex(xs[1..]))
  }

  ghost predicate LexBelow(h: seq<nat>, t: seq<seq<nat>>) {
    forall j :: 0 <= j < |t| ==> LexLeq(h, t[j])
  }

  lemma LexPrepend(h: seq<nat>, t: seq<seq<nat>>)
    requires LexSorted(t) && LexBelow(h, t)
    ensures LexSorted([h] + t)
  {
    hide LexLeq;
  }

  lemma {:induction false} InsertStaysAbove(h: seq<nat>, x: seq<nat>, xs: seq<seq<nat>>)
    requires LexLeq(h, x) && LexBelow(h, xs)
    ensures LexBelow(h, InsertLex(x, xs))
    decreases |xs|
  {
    hide LexLeq;
    if xs != [] {
      InsertStaysAbove(h, x, xs[1..]);
    }
  }

  lemma {:induction false} InsertLexSorted(x: seq<nat>, xs: seq<seq<nat>>)
    requires LexSorted(xs)
    ensures LexSorted(InsertLex(x, xs))
    decreases |xs|
  {
    hide LexLeq;
    if xs != [] {
      if LexLeq(x, xs[0]) {
        forall j | 0 <= j < |xs| ensures LexLeq(x, xs[j]) {
          if j > 0 { LexTransitive(x, xs[0], xs[j]); }
        }
        LexPrepend(x, xs);
      } else {
        LexTotal(x, xs[0]);
        InsertLexSorted(x, xs[1..]);
        InsertStaysAbove(xs[0], x, xs[1..]);
        LexPrepend(xs[0], InsertLex(x, xs[1..]));
      }
    }
  }

  lemma {:induction false} SortLexSorted(xs: seq<seq<nat>>)
    ensures LexSorted(SortLex(xs))
    decreases |xs|
  {
    if xs != [] {
      SortLexSorted(xs[1..]);
      InsertLexSorted(xs[0], SortLex(xs[1..]));
    }
  }

  ghost predicate Distinct<T>(xs: seq<T>) {
    forall i, j :: 0 <= i < j < |xs| ==> xs[i] != xs[j]
  }

  /** Having no element twice is a property of the multiset. */
  lemma DistinctIsMultiset<T>(xs: seq<T>)
    ensures Distinct(xs) <==> forall x :: x in xs ==> multiset(xs)[x] == 1
    decreases |xs|
  {
    if xs != [] {
      var x0, t := xs[0], xs[1..];
      assert xs == [x0] + t;
      DistinctIsMultiset(t);
      if Distinct(xs) {
        assert Distinct(t);
        assert x0 !in t;
        forall x | x in xs ensures multiset(xs)[x] == 1 { }
      }
      if forall x :: x in xs ==> multiset(xs)[x] == 1 {
        assert multiset(xs)[x0] == 1;
        assert x0 !in t;
        forall x | x in t ensures multiset(t)[x] == 1 { assert x in xs; }
      }
    }
  }

  /** A list of lists is sorted without gaining or losing an element. */
  lemma SortLexKeeps(xs: seq<seq<nat>>)
    requires Distinct(xs)
    ensures Distinct(SortLex(xs))
    ensures forall x :: x in SortLex(xs) <==> x in xs
  {
    DistinctIsMultiset(xs);
    DistinctIsMultiset(SortLex(xs));
    forall x ensures x in SortLex(xs) <==> x in xs {
      assert x in SortLex(xs) <==> x in multiset(SortLex(xs));
      assert x in xs <==> x in multiset(xs);
    }
  }
}
