/**
  Sorted sequences: a sort with the contract of a library sort, and the fact
  every "canonical form" argument rests on, that a strictly sorted sequence is
  determined by its members.
*/
module Sorting {

  ghost predicate Asymmetric<T(!new)>(lt: (T, T) -> bool) {
    forall x, y :: lt(x, y) ==> !lt(y, x)
  }

  ghost predicate TotalPreorder<T(!new)>(le: (T, T) -> bool) {
    && (forall x, y :: le(x, y) || le(y, x))
    && (forall x, y, z :: le(x, y) && le(y, z) ==> le(x, z))
  }

  ghost predicate SortedBy<T>(s: seq<T>, lt: (T, T) -> bool) {
    forall i, j :: 0 <= i < j < |s| ==> lt(s[i], s[j])
  }

  /** Two sequences sorted by an asymmetric relation with the same members are equal. */
  lemma {:induction false} SortedUnique<T(!new)>(a: seq<T>, b: seq<T>, lt: (T, T) -> bool)
    requires Asymmetric(lt) && SortedBy(a, lt) && SortedBy(b, lt)
    requires forall x :: x in a <==> x in b
    ensures a == b
  {
    assert a != [] ==> a[0] in b;
    assert b != [] ==> b[0] in a;
    if a != [] {
      assert a[0] == b[0];
      forall x ensures x in a[1..] <==> x in b[1..] {
        TailMembers(a, lt, x);
        TailMembers(b, lt, x);
      }
      SortedUnique(a[1..], b[1..], lt);
      assert a == [a[0]] + a[1..] && b == [b[0]] + b[1..];
    }
  }

  lemma TailMembers<T(!new)>(s: seq<T>, lt: (T, T) -> bool, x: T)
    requires s != [] && Asymmetric(lt) && SortedBy(s, lt)
    ensures x in s[1..] <==> x in s && x != s[0]
  {
    assert s == [s[0]] + s[1..];
    if x in s[1..] {
      var i :| 0 < i < |s| && s[i] == x;
      assert lt(s[0], s[i]);
    }
  }

  lemma ConsSorted<T>(x: T, s: seq<T>, lt: (T, T) -> bool)
    requires SortedBy(s, lt) && forall y :: y in s ==> lt(x, y)
    ensures SortedBy([x] + s, lt)
  {
  }

  /** `truncate`/`take`: the first `n`, or all. */
  function Cut<T>(s: seq<T>, n: nat): seq<T> {
    if |s| <= n then s else s[..n]
  }

  function Insert<T>(x: T, s: seq<T>, le: (T, T) -> bool): (r: seq<T>)
    ensures multiset(r) == multiset(s) + multiset{x}
  {
    if s == [] || le(x, s[0]) then
      [x] + s
    else
      assert s == [s[0]] + s[1..];
      [s[0]] + Insert(x, s[1..], le)
  }

  /** A stable sort. */
  function Sort<T>(s: seq<T>, le: (T, T) -> bool): (r: seq<T>)
    ensures multiset(r) == multiset(s)
    ensures |r| == |s|
  {
    if s == [] then
      []
    else
      assert s == [s[0]] + s[1..];
      var r := Insert(s[0], Sort(s[1..], le), le);
      assert |multiset(r)| == |r| && |multiset(s)| == |s|;
      r
  }

  lemma SameMembers<T>(a: seq<T>, b: seq<T>)
    requires multiset(a) == multiset(b)
    ensures forall x :: x in a <==> x in b
  {
    forall x ensures x in a <==> x in b {
      assert x in a <==> x in multiset(a);
      assert x in b <==> x in multiset(b);
    }
  }

  lemma {:induction false} InsertSorted<T(!new)>(x: T, s: seq<T>, le: (T, T) -> bool)
    requires TotalPreorder(le) && SortedBy(s, le)
    ensures SortedBy(Insert(x, s, le), le)
  {
    if s != [] && !le(x, s[0]) {
      InsertSorted(x, s[1..], le);
      var r := Insert(x, s[1..], le);
      assert multiset(r) == multiset(s[1..] + [x]);
      SameMembers(r, s[1..] + [x]);
      forall y | y in r ensures le(s[0], y) {
        assert y in s[1..] || y == x;
      }
    }
  }

  lemma {:induction false} SortSorted<T(!new)>(s: seq<T>, le: (T, T) -> bool)
    requires TotalPreorder(le)
    ensures SortedBy(Sort(s, le), le)
  {
    if s != [] {
      SortSorted(s[1..], le);
      InsertSorted(s[0], Sort(s[1..], le), le);
    }
  }

  /** Sorting what is already sorted changes nothing: the sort is stable. */
  lemma {:induction false} SortOfSorted<T>(s: seq<T>, le: (T, T) -> bool)
    requires SortedBy(s, le)
    ensures Sort(s, le) == s
  {
    if s != [] {
      SortOfSorted(s[1..], le);
      assert s == [s[0]] + s[1..];
    }
  }

  ghost predicate Distinct<T>(s: seq<T>) {
    forall i, j :: 0 <= i < j < |s| ==> s[i] != s[j]
  }

  lemma {:induction false} DistinctCounts<T>(s: seq<T>)
    ensures Distinct(s) <==> forall x :: multiset(s)[x] <= 1
  {
    if s != [] {
      var n := |s| - 1;
      DistinctCounts(s[..n]);
      assert s == s[..n] + [s[n]];
      if Distinct(s) {
        assert s[n] !in s[..n];
        assert multiset(s[..n])[s[n]] == 0;
      }
      if forall x :: multiset(s)[x] <= 1 {
        forall x ensures multiset(s[..n])[x] <= 1 { assert multiset(s)[x] <= 1; }
        assert multiset(s)[s[n]] <= 1;
        assert s[n] !in multiset(s[..n]);
        assert s[n] !in s[..n];
      }
    }
  }

  /** Sorting distinct elements gives a strictly sorted sequence of the same elements. */
  lemma SortDistinct<T(!new)>(s: seq<T>, le: (T, T) -> bool, lt: (T, T) -> bool)
    requires TotalPreorder(le) && Distinct(s)
    requires forall x, y :: x in s && y in s && x != y && le(x, y) ==> lt(x, y)
    ensures SortedBy(Sort(s, le), lt) && Distinct(Sort(s, le))
    ensures forall x :: x in Sort(s, le) <==> x in s
  {
    SortSorted(s, le);
    DistinctCounts(s);
    DistinctCounts(Sort(s, le));
    SameMembers(Sort(s, le), s);
  }
}
