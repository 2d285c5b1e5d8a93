/** Sorting by a comparator, as far as the result goes: what any stable sort makes of a list. */
module Sorting {

  ghost predicate IsOrder<T(!new)>(less: (T, T) -> bool) {
    && (forall a :: !less(a, a))
    && (forall a, b, c :: less(a, b) && less(b, c) ==> less(a, c))
  }

  ghost predicate InOrder<T>(s: seq<T>, less: (T, T) -> bool) {
    forall i, j :: 0 <= i < j < |s| ==> !less(s[j], s[i])
  }

  /** After its equals. */
  function Insert<T>(s: seq<T>, x: T, less: (T, T) -> bool): seq<T> {
    if s == [] || less(x, s[0]) then [x] + s else [s[0]] + Insert(s[1..], x, less)
  }

  function Sorted<T>(s: seq<T>, less: (T, T) -> bool): seq<T> {
    if s == [] then [] else Insert(Sorted(s[..|s| - 1], less), s[|s| - 1], less)
  }

  lemma {:induction false} InsertKeeps<T>(s: seq<T>, x: T, less: (T, T) -> bool)
    ensures multiset(Insert(s, x, less)) == multiset(s) + multiset{x}
  {
    if s != [] && !less(x, s[0]) {
      InsertKeeps(s[1..], x, less);
      assert s == [s[0]] + s[1..];
    }
  }

  lemma {:induction false} SortedKeeps<T>(s: seq<T>, less: (T, T) -> bool)
    ensures multiset(Sorted(s, less)) == multiset(s)
  {
    if s != [] {
      SortedKeeps(s[..|s| - 1], less);
      InsertKeeps(Sorted(s[..|s| - 1], less), s[|s| - 1], less);
      assert s == s[..|s| - 1] + [s[|s| - 1]];
    }
  }

  lemma SameMembers<T>(a: seq<T>, b: seq<T>)
    requires multiset(a) == multiset(b)
    ensures |a| == |b| && forall x :: x in a <==> x in b
  {
    assert |multiset(a)| == |a| && |multiset(b)| == |b|;
    forall x ensures x in a <==> x in b {
      assert x in a <==> x in multiset(a);
      assert x in b <==> x in multiset(b);
    }
  }

  lemma {:induction false} InsertMembers<T>(s: seq<T>, x: T, less: (T, T) -> bool, y: T)
    ensures y in Insert(s, x, less) <==> y in s || y == x
  {
    if s != [] && !less(x, s[0]) {
      InsertMembers(s[1..], x, less, y);
    }
  }

  lemma PrependInOrder<T>(x: T, s: seq<T>, less: (T, T) -> bool)
    requires InOrder(s, less) && forall y :: y in s ==> !less(y, x)
    ensures InOrder([x] + s, less)
  {
  }

  lemma {:induction false} InsertInOrder<T(!new)>(s: seq<T>, x: T, less: (T, T) -> bool)
    requires IsOrder(less) && InOrder(s, less)
    ensures InOrder(Insert(s, x, less), less)
  {
    if s == [] {
    } else if less(x, s[0]) {
      forall y | y in s ensures !less(y, x) {
        var j :| 0 <= j < |s| && s[j] == y;
        assert !less(y, s[0]);
      }
      PrependInOrder(x, s, less);
    } else {
      InsertInOrder(s[1..], x, less);
      forall y | y in Insert(s[1..], x, less) ensures !less(y, s[0]) {
        InsertMembers(s[1..], x, less, y);
        if y in s[1..] {
          var j :| 0 <= j < |s[1..]| && s[1..][j] == y;
          assert s[j + 1] == y;
        }
      }
      PrependInOrder(s[0], Insert(s[1..], x, less), less);
    }
  }

  lemma {:induction false} SortedInOrder<T(!new)>(s: seq<T>, less: (T, T) -> bool)
    requires IsOrder(less)
    ensures InOrder(Sorted(s, less), less)
  {
    if s != [] {
      SortedInOrder(s[..|s| - 1], less);
      InsertInOrder(Sorted(s[..|s| - 1], less), s[|s| - 1], less);
    }
  }

  /** Any two different members compare. */
  ghost predicate Comparable<T>(m: multiset<T>, less: (T, T) -> bool) {
    forall a, b :: a in m && b in m && a != b ==> less(a, b) || less(b, a)
  }

  lemma TailsAgree<T>(a: seq<T>, b: seq<T>, less: (T, T) -> bool)
    requires multiset(a) == multiset(b) && a != [] && b != [] && a[0] == b[0] && Comparable(multiset(a), less)
    ensures multiset(a[1..]) == multiset(b[1..]) && Comparable(multiset(a[1..]), less)
  {
    assert a == [a[0]] + a[1..] && b == [b[0]] + b[1..];
    assert multiset(a[1..]) == multiset(a) - multiset{a[0]};
    assert multiset(b[1..]) == multiset(b) - multiset{b[0]};
    assert forall x :: x in multiset(a[1..]) ==> x in multiset(a);
  }

  lemma HeadsAgree<T>(a: seq<T>, b: seq<T>, less: (T, T) -> bool)
    requires a != [] && b != [] && a[0] in b && b[0] in a && InOrder(a, less) && InOrder(b, less)
    requires a[0] != b[0] ==> less(a[0], b[0]) || less(b[0], a[0])
    ensures a[0] == b[0]
  {
    var i :| 0 <= i < |a| && a[i] == b[0];
    var j :| 0 <= j < |b| && b[j] == a[0];
    assert i > 0 ==> !less(a[i], a[0]);
    assert j > 0 ==> !less(b[j], b[0]);
  }

  /** Where all members compare there is one way to be in order, whatever algorithm sorts. */
  lemma {:induction false} OrderIsUnique<T>(a: seq<T>, b: seq<T>, less: (T, T) -> bool)
    requires multiset(a) == multiset(b) && InOrder(a, less) && InOrder(b, less) && Comparable(multiset(a), less)
    ensures a == b
  {
    SameMembers(a, b);
    if a != [] {
      assert a[0] in multiset(a) && b[0] in multiset(b);
      HeadsAgree(a, b, less);
      TailsAgree(a, b, less);
      OrderIsUnique(a[1..], b[1..], less);
      assert a == [a[0]] + a[1..] && b == [b[0]] + b[1..];
    }
  }

  /** So a sort does not depend on the order it is given. */
  lemma SortingForgetsOrder<T(!new)>(a: seq<T>, b: seq<T>, less: (T, T) -> bool)
    requires IsOrder(less) && multiset(a) == multiset(b) && Comparable(multiset(a), less)
    ensures Sorted(a, less) == Sorted(b, less)
  {
    SortedKeeps(a, less);
    SortedKeeps(b, less);
    SortedInOrder(a, less);
    SortedInOrder(b, less);
    OrderIsUnique(Sorted(a, less), Sorted(b, less), less);
  }
}
