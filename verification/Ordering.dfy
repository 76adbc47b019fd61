/** Sorting rows by a strict order, as an ORDER BY clause does. */
module Ordering {
  import opened Sums

  function Insert<T>(x: T, s: seq<T>, before: (T, T) -> bool): (r: seq<T>)
    ensures |r| == |s| + 1
  {
    if s == [] then [x]
    else if before(x, s[0]) then [x] + s
    else [s[0]] + Insert(x, s[1..], before)
  }

  function Sort<T>(s: seq<T>, before: (T, T) -> bool): (r: seq<T>)
    ensures |r| == |s|
  {
    if s == [] then [] else Insert(s[|s| - 1], Sort(s[..|s| - 1], before), before)
  }

  ghost predicate Transitive<T(!new)>(before: (T, T) -> bool) {
    forall x, y, z :: before(x, y) && before(y, z) ==> before(x, z)
  }

  /** Any two different positions of s are ordered one way or the other. */
  ghost predicate Comparable<T>(s: seq<T>, before: (T, T) -> bool) {
    forall i, j :: 0 <= i < |s| && 0 <= j < |s| && i != j ==> before(s[i], s[j]) || before(s[j], s[i])
  }

  ghost predicate Ascending<T>(s: seq<T>, before: (T, T) -> bool) {
    forall i, j :: 0 <= i < j < |s| ==> before(s[i], s[j])
  }

  lemma {:induction false} InsertElements<T>(x: T, s: seq<T>, before: (T, T) -> bool)
    ensures multiset(Insert(x, s, before)) == multiset(s) + multiset{x}
    decreases |s|
  {
    if s != [] && !before(x, s[0]) {
      InsertElements(x, s[1..], before);
      assert s == [s[0]] + s[1..];
    }
  }

  /** Sorting keeps the rows: none is lost and none is repeated. */
  lemma {:induction false} SortElements<T>(s: seq<T>, before: (T, T) -> bool)
    ensures multiset(Sort(s, before)) == multiset(s)
    decreases |s|
  {
    if s != [] {
      SortElements(s[..|s| - 1], before);
      InsertElements(s[|s| - 1], Sort(s[..|s| - 1], before), before);
      assert s == s[..|s| - 1] + [s[|s| - 1]];
    }
  }

  lemma SortMembers<T>(s: seq<T>, before: (T, T) -> bool)
    ensures forall x :: x in Sort(s, before) <==> x in s
  {
    SortElements(s, before);
    assert forall x :: x in s <==> x in multiset(s);
    assert forall x :: x in Sort(s, before) <==> x in multiset(Sort(s, before));
  }

  lemma {:induction false} InsertAscending<T(!new)>(x: T, s: seq<T>, before: (T, T) -> bool)
    requires Transitive(before) && Ascending(s, before)
    requires forall i :: 0 <= i < |s| ==> before(x, s[i]) || before(s[i], x)
    ensures Ascending(Insert(x, s, before), before)
    decreases |s|
  {
    var r := Insert(x, s, before);
    if s != [] && !before(x, s[0]) {
      var rest := Insert(x, s[1..], before);
      InsertAscending(x, s[1..], before);
      InsertElements(x, s[1..], before);
      forall j | 0 <= j < |rest|
        ensures before(s[0], rest[j])
      {
        assert rest[j] in multiset(rest);
        assert rest[j] == x || rest[j] in s[1..];
      }
    }
  }

  /** Sorting comparable rows by a transitive order puts them in that order. */
  lemma {:induction false} SortAscending<T(!new)>(s: seq<T>, before: (T, T) -> bool)
    requires Transitive(before) && Comparable(s, before)
    ensures Ascending(Sort(s, before), before)
    decreases |s|
  {
    if s != [] {
      var init, x := s[..|s| - 1], s[|s| - 1];
      SortAscending(init, before);
      SortMembers(init, before);
      var r := Sort(init, before);
      forall i | 0 <= i < |r|
        ensures before(x, r[i]) || before(r[i], x)
      {
        assert r[i] in init;
        var j :| 0 <= j < |init| && init[j] == r[i];
        assert s[j] == r[i];
      }
      InsertAscending(x, r, before);
    }
  }

  lemma {:induction false} InsertSum<T>(x: T, s: seq<T>, before: (T, T) -> bool, f: T -> int)
    ensures SumBy(Insert(x, s, before), f) == SumBy(s, f) + f(x)
    decreases |s|
  {
    if s == [] {
      SumAppend([], x, f);
    } else if before(x, s[0]) {
      SumConcat([x], s, f);
      SumAppend([], x, f);
    } else {
      InsertSum(x, s[1..], before, f);
      assert s == [s[0]] + s[1..];
      SumConcat([s[0]], s[1..], f);
      SumConcat([s[0]], Insert(x, s[1..], before), f);
    }
  }

  /** Sorting does not change a total. */
  lemma {:induction false} SortSum<T>(s: seq<T>, before: (T, T) -> bool, f: T -> int)
    ensures SumBy(Sort(s, before), f) == SumBy(s, f)
    decreases |s|
  {
    if s != [] {
      SortSum(s[..|s| - 1], before, f);
      InsertSum(s[|s| - 1], Sort(s[..|s| - 1], before), before, f);
    }
  }
}
