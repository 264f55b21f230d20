/** Sorting by a strict order, and why the order of the input does not matter. */
module Sorting {

  ghost predicate StrictOrder<T(!new)>(less: (T, T) -> bool) {
    && (forall x :: !less(x, x))
    && forall x, y, z :: less(x, y) && less(y, z) ==> less(x, z)
  }

  /** Any two different elements are ordered one way or the other. */
  ghost predicate Comparable<T>(less: (T, T) -> bool, s: seq<T>) {
    forall x, y | x in s && y in s && x != y :: less(x, y) || less(y, x)
  }

  ghost predicate Ascending<T>(less: (T, T) -> bool, s: seq<T>) {
    s == [] || ((forall x | x in s[1..] :: less(s[0], x)) && Ascending(less, s[1..]))
  }

  function Place<T>(less: (T, T) -> bool, x: T, s: seq<T>): seq<T> {
    if s == [] || less(x, s[0]) then [x] + s else [s[0]] + Place(less, x, s[1..])
  }

  /** A stable insertion sort: later equals go after earlier ones. */
  function Sort<T>(less: (T, T) -> bool, s: seq<T>): seq<T> {
    if s == [] then [] else Place(less, s[|s| - 1], Sort(less, s[..|s| - 1]))
  }

  lemma {:induction false} PlaceKeeps<T>(less: (T, T) -> bool, x: T, s: seq<T>)
    ensures multiset(Place(less, x, s)) == multiset(s) + multiset{x}
  {
    if s != [] && !less(x, s[0]) {
      PlaceKeeps(less, x, s[1..]);
      assert s == [s[0]] + s[1..];
    }
  }

  lemma {:induction false} SortKeeps<T>(less: (T, T) -> bool, s: seq<T>)
    ensures multiset(Sort(less, s)) == multiset(s)
  {
    if s != [] {
      SortKeeps(less, s[..|s| - 1]);
      PlaceKeeps(less, s[|s| - 1], Sort(less, s[..|s| - 1]));
      assert s == s[..|s| - 1] + [s[|s| - 1]];
    }
  }

  lemma {:induction false} MembersOf<T>(a: seq<T>, b: seq<T>)
    requires multiset(a) == multiset(b)
    ensures forall x :: x in a <==> x in b
    ensures |a| == |b|
  {
    forall x ensures x in a <==> x in b {
      assert x in a <==> x in multiset(a);
      assert x in b <==> x in multiset(b);
    }
    assert |multiset(a)| == |multiset(b)|;
  }

  lemma {:induction false} PlaceAscends<T(!new)>(less: (T, T) -> bool, x: T, s: seq<T>)
    requires StrictOrder(less) && Ascending(less, s) && x !in s
    requires forall y | y in s :: less(x, y) || less(y, x)
    ensures Ascending(less, Place(less, x, s))
  {
    if s == [] {
    } else if less(x, s[0]) {
      assert ([x] + s)[1..] == s;
      forall y | y in s ensures less(x, y) {
        assert y == s[0] || y in s[1..];
      }
    } else {
      PlaceAscends(less, x, s[1..]);
      PlaceKeeps(less, x, s[1..]);
      var t := Place(less, x, s[1..]);
      assert multiset(t) == multiset(s[1..] + [x]);
      MembersOf(t, s[1..] + [x]);
      assert ([s[0]] + t)[1..] == t;
    }
  }

  /** Sorting distinct comparable elements gives them in ascending order. */
  lemma {:induction false} SortAscends<T(!new)>(less: (T, T) -> bool, s: seq<T>)
    requires StrictOrder(less) && Comparable(less, s) && forall x | x in s :: multiset(s)[x] == 1
    ensures Ascending(less, Sort(less, s))
  {
    if s != [] {
      var shorter, x := s[..|s| - 1], s[|s| - 1];
      assert s == shorter + [x];
      assert multiset(s) == multiset(shorter) + multiset{x};
      forall y | y in shorter ensures multiset(shorter)[y] == 1 {
        assert y in s;
      }
      SortAscends(less, shorter);
      SortKeeps(less, shorter);
      MembersOf(Sort(less, shorter), shorter);
      assert x !in shorter by { assert multiset(s)[x] == 1; }
      PlaceAscends(less, x, Sort(less, shorter));
    }
  }

  lemma {:induction false} Asymmetric<T(!new)>(less: (T, T) -> bool, x: T, y: T)
    requires StrictOrder(less)
    ensures !(less(x, y) && less(y, x))
  {
    assert !less(x, x);
  }

  lemma {:induction false} HeadLeads<T>(less: (T, T) -> bool, s: seq<T>, x: T)
    requires Ascending(less, s) && x in s
    ensures x == s[0] || less(s[0], x)
  {
  }

  lemma {:induction false} TailsAgree<T>(a: seq<T>, b: seq<T>)
    requires a != [] && b != [] && a[0] == b[0] && multiset(a) == multiset(b)
    ensures multiset(a[1..]) == multiset(b[1..])
  {
    assert a == [a[0]] + a[1..] && b == [b[0]] + b[1..];
    assert multiset(a[1..]) == multiset(a) - multiset{a[0]};
    assert multiset(b[1..]) == multiset(b) - multiset{b[0]};
  }

  /** There is only one ascending arrangement of given elements. */
  lemma {:induction false} AscendingUnique<T(!new)>(less: (T, T) -> bool, a: seq<T>, b: seq<T>)
    requires StrictOrder(less) && Ascending(less, a) && Ascending(less, b) && multiset(a) == multiset(b)
    ensures a == b
  {
    MembersOf(a, b);
    if a != [] {
      HeadLeads(less, a, b[0]);
      HeadLeads(less, b, a[0]);
      Asymmetric(less, a[0], b[0]);
      TailsAgree(a, b);
      AscendingUnique(less, a[1..], b[1..]);
      assert a == [a[0]] + a[1..] && b == [b[0]] + b[1..];
    }
  }

  /** So sorting does not depend on the order the elements came in. */
  lemma {:induction false} SortCanonical<T(!new)>(less: (T, T) -> bool, a: seq<T>, b: seq<T>)
    requires StrictOrder(less) && multiset(a) == multiset(b)
    requires Comparable(less, a) && forall x | x in a :: multiset(a)[x] == 1
    ensures Sort(less, a) == Sort(less, b)
  {
    MembersOf(a, b);
    SortAscends(less, a);
    SortAscends(less, b);
    SortKeeps(less, a);
    SortKeeps(less, b);
    AscendingUnique(less, Sort(less, a), Sort(less, b));
  }
}
