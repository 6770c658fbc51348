/** Python's sorted(): a stable sort, as insertion of one element after the other. */
module Sorting {

  ghost predicate TotalPreorder<T(!new)>(le: (T, T) -> bool) {
    && (forall x, y :: le(x, y) || le(y, x))
    && (forall x, y, z :: le(x, y) && le(y, z) ==> le(x, z))
  }

  ghost predicate Sorted<T>(s: seq<T>, le: (T, T) -> bool) {
    forall i, j | 0 <= i < j < |s| :: le(s[i], s[j])
  }

  /** x goes behind every element that may stand before it. */
  function Insert<T>(s: seq<T>, x: T, le: (T, T) -> bool): (r: seq<T>)
    ensures multiset(r) == multiset(s) + multiset{x}
  {
    if s == [] || le(s[|s| - 1], x) then s + [x] else
    assert s == s[..|s| - 1] + [s[|s| - 1]];
    Insert(s[..|s| - 1], x, le) + [s[|s| - 1]]
  }

  function StableSort<T>(s: seq<T>, le: (T, T) -> bool): (r: seq<T>)
    ensures multiset(r) == multiset(s)
  {
    if s == [] then [] else
    assert s == s[..|s| - 1] + [s[|s| - 1]];
    Insert(StableSort(s[..|s| - 1], le), s[|s| - 1], le)
  }

  lemma SortKeepsElements<T(!new)>(s: seq<T>, le: (T, T) -> bool)
    ensures |StableSort(s, le)| == |s| && forall x :: x in StableSort(s, le) <==> x in s
  {
    assert |StableSort(s, le)| == |multiset(s)|;
    assert forall x :: x in s <==> x in multiset(s);
    assert forall x :: x in StableSort(s, le) <==> x in multiset(StableSort(s, le));
  }

  lemma {:induction false} InsertSorted<T(!new)>(s: seq<T>, x: T, le: (T, T) -> bool)
    requires TotalPreorder(le) && Sorted(s, le)
    ensures Sorted(Insert(s, x, le), le)
  {
    if s == [] || le(s[|s| - 1], x) {
    } else {
      var init, last := s[..|s| - 1], s[|s| - 1];
      InsertSorted(init, x, le);
      var r := Insert(init, x, le);
      forall y | y in r
        ensures le(y, last)
      {
        assert y in multiset(r);
        assert y == x || y in init;
      }
    }
  }

  lemma {:induction false} SortSorts<T(!new)>(s: seq<T>, le: (T, T) -> bool)
    requires TotalPreorder(le)
    ensures Sorted(StableSort(s, le), le)
  {
    if s != [] {
      SortSorts(s[..|s| - 1], le);
      InsertSorted(StableSort(s[..|s| - 1], le), s[|s| - 1], le);
    }
  }

  /** Sorting a sorted list changes nothing. */
  lemma {:induction false} SortKeepsSorted<T>(s: seq<T>, le: (T, T) -> bool)
    requires Sorted(s, le)
    ensures StableSort(s, le) == s
  {
    if s != [] {
      SortKeepsSorted(s[..|s| - 1], le);
      assert |s| > 1 ==> le(s[|s| - 2], s[|s| - 1]);
      assert s == s[..|s| - 1] + [s[|s| - 1]];
    }
  }

  lemma SortSnoc<T>(s: seq<T>, x: T, le: (T, T) -> bool)
    ensures StableSort(s + [x], le) == Insert(StableSort(s, le), x, le)
  {
    assert (s + [x])[..|s|] == s;
  }

  function Filter<T>(s: seq<T>, p: T -> bool): seq<T> {
    if s == [] then [] else Filter(s[..|s| - 1], p) + (if p(s[|s| - 1]) then [s[|s| - 1]] else [])
  }

  lemma FilterSnoc<T>(s: seq<T>, x: T, p: T -> bool)
    ensures Filter(s + [x], p) == Filter(s, p) + (if p(x) then [x] else [])
  {
    assert (s + [x])[..|s|] == s;
  }

  /** The elements that compare equal to k. */
  function Alike<T>(le: (T, T) -> bool, k: T): T -> bool {
    e => le(e, k) && le(k, e)
  }

  lemma NotBothAlike<T(!new)>(le: (T, T) -> bool, x: T, y: T, k: T)
    requires TotalPreorder(le) && !le(x, y)
    ensures !(Alike(le, k)(x) && Alike(le, k)(y))
  {
  }

  /** Elements that compare equal to k keep their order. */
  lemma {:induction false} InsertIsStable<T(!new)>(s: seq<T>, x: T, le: (T, T) -> bool, k: T)
    requires TotalPreorder(le)
    ensures Filter(Insert(s, x, le), Alike(le, k)) == Filter(s, Alike(le, k)) + (if Alike(le, k)(x) then [x] else [])
  {
    hide TotalPreorder, Alike;
    var same := Alike(le, k);
    if s == [] || le(s[|s| - 1], x) {
      FilterSnoc(s, x, same);
    } else {
      var init, last := s[..|s| - 1], s[|s| - 1];
      NotBothAlike(le, last, x, k);
      var r := Insert(init, x, le);
      assert Insert(s, x, le) == r + [last] && s == init + [last];
      InsertIsStable(init, x, le, k);
      hide Filter, Insert;
      FilterSnoc(r, last, same);
      FilterSnoc(init, last, same);
      if same(x) {
        assert Filter(init, same) + [x] + [] == Filter(init, same) + [] + [x];
      }
    }
  }

  lemma {:induction false} SortIsStable<T(!new)>(s: seq<T>, le: (T, T) -> bool, k: T)
    requires TotalPreorder(le)
    ensures Filter(StableSort(s, le), Alike(le, k)) == Filter(s, Alike(le, k))
  {
    if s != [] {
      var init, last := s[..|s| - 1], s[|s| - 1];
      SortIsStable(init, le, k);
      InsertIsStable(StableSort(init, le), last, le, k);
    }
  }
}
