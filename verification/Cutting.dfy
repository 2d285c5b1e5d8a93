/** Counting the elements of a list that satisfy a predicate, and cutting the list at them. */
module Cutting {

  function Count<T>(s: seq<T>, p: T -> bool): nat {
    if s == [] then 0 else (if p(s[0]) then 1 else 0) + Count(s[1..], p)
  }

  function First<T>(s: seq<T>, p: T -> bool): (i: nat)
    ensures i <= |s| && (forall j :: 0 <= j < i ==> !p(s[j])) && (i < |s| ==> p(s[i]))
  {
    if s == [] || p(s[0]) then 0 else 1 + First(s[1..], p)
  }

  ghost predicate NoneOf<T>(s: seq<T>, p: T -> bool) {
    forall i :: 0 <= i < |s| ==> !p(s[i])
  }

  /** `m` is the one place where the predicate holds. */
  ghost predicate Only<T>(s: seq<T>, p: T -> bool, m: nat) {
    m < |s| && p(s[m]) && forall i :: 0 <= i < |s| && i != m ==> !p(s[i])
  }

  lemma {:induction false} CountOfSum<T>(a: seq<T>, b: seq<T>, p: T -> bool)
    ensures Count(a + b, p) == Count(a, p) + Count(b, p)
  {
    if a == [] {
      assert a + b == b;
    } else {
      CountOfSum(a[1..], b, p);
      assert (a + b)[1..] == a[1..] + b;
    }
  }

  lemma {:induction false} NoneCounted<T>(s: seq<T>, p: T -> bool)
    ensures Count(s, p) == 0 <==> NoneOf(s, p)
  {
    if s != [] {
      NoneCounted(s[1..], p);
      assert NoneOf(s, p) <==> !p(s[0]) && NoneOf(s[1..], p) by {
        assert forall i :: 1 <= i < |s| ==> s[i] == s[1..][i - 1];
        if !p(s[0]) && NoneOf(s[1..], p) {
          forall i | 0 <= i < |s| ensures !p(s[i]) {
            assert i > 0 ==> !p(s[1..][i - 1]);
          }
        }
      }
    }
  }

  lemma CountAround<T>(s: seq<T>, m: nat, p: T -> bool)
    requires m < |s|
    ensures Count(s, p) == Count(s[..m], p) + (if p(s[m]) then 1 else 0) + Count(s[m + 1..], p)
  {
    var a, b := s[..m], s[m..];
    assert s == a + b;
    CountOfSum(a, b, p);
    assert b[1..] == s[m + 1..];
  }

  /** Counted once and first here is the same as holding nowhere else. */
  lemma OnlyIff<T>(s: seq<T>, m: nat, p: T -> bool)
    requires m < |s|
    ensures Only(s, p, m) <==> Count(s, p) == 1 && First(s, p) == m
  {
    CountAround(s, m, p);
    NoneCounted(s[..m], p);
    NoneCounted(s[m + 1..], p);
    var f := First(s, p);
    if f < m {
      assert s[..m][f] == s[f];
    }
  }

  lemma OnlyBetween<T>(a: seq<T>, x: T, b: seq<T>, p: T -> bool)
    requires NoneOf(a, p) && p(x) && NoneOf(b, p)
    ensures var s := a + ([x] + b); Count(s, p) == 1 && First(s, p) == |a|
  {
    var s := a + ([x] + b);
    forall i | 0 <= i < |s| && i != |a| ensures !p(s[i]) {
      assert s[i] == if i < |a| then a[i] else b[i - |a| - 1];
    }
    OnlyIff(s, |a|, p);
  }

  // ---- Cutting ----------------------------------------------------------------------------

  datatype Section<T> = Section(heading: T, body: seq<T>)

  datatype Document<T> = Document(front: seq<T>, sections: seq<Section<T>>)

  function Flatten<T>(sections: seq<Section<T>>): seq<T> {
    if sections == [] then [] else [sections[0].heading] + sections[0].body + Flatten(sections[1..])
  }

  function Compose<T>(d: Document<T>): seq<T> {
    d.front + Flatten(d.sections)
  }

  ghost predicate IsCut<T>(d: Document<T>, p: T -> bool) {
    NoneOf(d.front, p) && forall i :: 0 <= i < |d.sections| ==> p(d.sections[i].heading) && NoneOf(d.sections[i].body, p)
  }

  function Cut<T>(s: seq<T>, p: T -> bool): Document<T> {
    if s == [] then Document([], [])
    else
      var d := Cut(s[1..], p);
      if p(s[0]) then Document([], [Section(s[0], d.front)] + d.sections)
      else Document([s[0]] + d.front, d.sections)
  }

  lemma {:induction false} CutComposes<T>(s: seq<T>, p: T -> bool)
    ensures IsCut(Cut(s, p), p) && Compose(Cut(s, p)) == s
  {
    if s != [] {
      var d := Cut(s[1..], p);
      CutComposes(s[1..], p);
      if p(s[0]) {
        assert Compose(Cut(s, p)) == [s[0]] + Compose(d);
      } else {
        assert Compose(Cut(s, p)) == [s[0]] + Compose(d);
      }
    }
  }

  /** Cutting undoes composing: there is one way to cut a list. */
  lemma {:induction false} ComposeCuts<T>(d: Document<T>, p: T -> bool)
    requires IsCut(d, p)
    ensures Cut(Compose(d), p) == d
    decreases |Compose(d)|
  {
    var s := Compose(d);
    if d.front != [] {
      var rest := Document(d.front[1..], d.sections);
      assert s == [d.front[0]] + Compose(rest);
      ComposeCuts(rest, p);
    } else if d.sections != [] {
      var rest := Document(d.sections[0].body, d.sections[1..]);
      assert s == [d.sections[0].heading] + Compose(rest);
      ComposeCuts(rest, p);
      assert d.sections == [Section(d.sections[0].heading, d.sections[0].body)] + d.sections[1..];
    }
  }

  // ---- Cutting by indexes --------------------------------------------------------------------

  /** The ascending list of all the places before `i` where the predicate holds. */
  ghost predicate Places<T>(s: seq<T>, p: T -> bool, i: nat, at: seq<nat>) {
    && i <= |s|
    && (forall k :: 0 <= k < |at| ==> at[k] < i && p(s[at[k]]))
    && (forall j, k :: 0 <= j < k < |at| ==> at[j] < at[k])
    && (forall j :: 0 <= j < i && p(s[j]) ==> j in at)
  }

  /** Where what starts at the k-th place, or before any place, ends. */
  function StartOf(at: seq<nat>, k: nat, size: nat): nat {
    if k < |at| then at[k] else size
  }

  ghost predicate InRange(at: seq<nat>, size: nat) {
    (forall k :: 0 <= k < |at| ==> at[k] < size) && (forall j, k :: 0 <= j < k < |at| ==> at[j] < at[k])
  }

  /** The sections from the k-th place on, by slicing. */
  ghost function SectionsFrom<T>(s: seq<T>, at: seq<nat>, k: nat): (r: seq<Section<T>>)
    requires InRange(at, |s|) && k <= |at|
    decreases |at| - k
  {
    if k == |at| then [] else [SectionAt(s, at, k)] + SectionsFrom(s, at, k + 1)
  }

  function SectionAt<T>(s: seq<T>, at: seq<nat>, k: nat): Section<T>
    requires k < |at| && at[k] < StartOf(at, k + 1, |s|) <= |s|
  {
    Section(s[at[k]], s[at[k] + 1..StartOf(at, k + 1, |s|)])
  }

  lemma {:induction false} SectionsFromAre<T>(s: seq<T>, at: seq<nat>, k: nat, j: nat)
    requires InRange(at, |s|) && k <= |at|
    ensures |SectionsFrom(s, at, k)| == |at| - k
    ensures k <= j < |at| ==> SectionsFrom(s, at, k)[j - k] == SectionAt(s, at, j)
    decreases |at| - k
  {
    if k < |at| {
      SectionsFromAre(s, at, k + 1, j);
      var rest := SectionsFrom(s, at, k + 1);
      assert SectionsFrom(s, at, k) == [SectionAt(s, at, k)] + rest;
    }
  }

  lemma CutUnfolds<T>(s: seq<T>, p: T -> bool, i: nat)
    requires i < |s|
    ensures var d := Cut(s[i + 1..], p);
            Cut(s[i..], p) == if p(s[i]) then Document([], [Section(s[i], d.front)] + d.sections) else Document([s[i]] + d.front, d.sections)
  {
    assert s[i..][1..] == s[i + 1..];
  }

  lemma NextPlace<T>(s: seq<T>, p: T -> bool, at: seq<nat>, i: nat, k: nat)
    requires Places(s, p, |s|, at) && i < |s| && k <= |at|
    requires (forall j :: 0 <= j < k ==> at[j] < i) && (forall j :: k <= j < |at| ==> i <= at[j])
    ensures p(s[i]) <==> k < |at| && at[k] == i
    ensures forall j :: k < j < |at| ==> i + 1 <= at[j]
  {
    if p(s[i]) {
      var x :| 0 <= x < |at| && at[x] == i;
      assert k <= x && i <= at[k];
    }
  }

  lemma {:induction false} CutFrom<T>(s: seq<T>, p: T -> bool, at: seq<nat>, i: nat, k: nat)
    requires Places(s, p, |s|, at) && InRange(at, |s|) && i <= |s| && k <= |at|
    requires (forall j :: 0 <= j < k ==> at[j] < i) && (forall j :: k <= j < |at| ==> i <= at[j])
    ensures Cut(s[i..], p) == Document(s[i..StartOf(at, k, |s|)], SectionsFrom(s, at, k))
    decreases |s| - i
  {
    if i == |s| {
      assert k == |at|;
    } else {
      NextPlace(s, p, at, i, k);
      if p(s[i]) {
        CutFrom(s, p, at, i + 1, k + 1);
      } else {
        CutFrom(s, p, at, i + 1, k);
        FoldPlain(s, p, at, i, k);
      }
    }
  }

  lemma FoldPlain<T>(s: seq<T>, p: T -> bool, at: seq<nat>, i: nat, k: nat)
    requires InRange(at, |s|) && i < |s| && k <= |at| && i < StartOf(at, k, |s|) && !p(s[i])
    requires Cut(s[i + 1..], p) == Document(s[i + 1..StartOf(at, k, |s|)], SectionsFrom(s, at, k))
    ensures Cut(s[i..], p) == Document(s[i..StartOf(at, k, |s|)], SectionsFrom(s, at, k))
  {
    CutUnfolds(s, p, i);
    assert [s[i]] + s[i + 1..StartOf(at, k, |s|)] == s[i..StartOf(at, k, |s|)];
  }

  /** Slicing between the places where the predicate holds is cutting there. */
  lemma PlacesDelimit<T>(s: seq<T>, p: T -> bool, at: seq<nat>)
    requires Places(s, p, |s|, at)
    ensures InRange(at, |s|) && Cut(s, p) == Document(s[..StartOf(at, 0, |s|)], SectionsFrom(s, at, 0))
  {
    CutFrom(s, p, at, 0, 0);
    assert s[0..] == s;
  }

  /** Each section is the slice from its place to the next. */
  ghost predicate Slices<T>(s: seq<T>, at: seq<nat>, sections: seq<Section<T>>) {
    && |sections| == |at| && InRange(at, |s|)
    && forall k :: 0 <= k < |at| ==> sections[k] == SectionAt(s, at, k)
  }

  lemma CutSlices<T>(s: seq<T>, p: T -> bool, at: seq<nat>)
    requires Places(s, p, |s|, at)
    ensures Slices(s, at, Cut(s, p).sections)
    ensures |Cut(s, p).front| == if |at| > 0 then at[0] else |s|
  {
    PlacesDelimit(s, p, at);
    SectionsFromAre(s, at, 0, 0);
    forall k | 0 <= k < |at| ensures SectionsFrom(s, at, 0)[k] == SectionAt(s, at, k) {
      SectionsFromAre(s, at, 0, k);
    }
  }

  /** The indexes that `flatMap` collects. */
  method Indexes<T>(s: seq<T>, p: T -> bool) returns (at: seq<nat>)
    ensures Places(s, p, |s|, at)
  {
    at := [];
    for i := 0 to |s|
      invariant Places(s, p, i, at)
    {
      if p(s[i]) {
        at := at + [i];
      }
    }
  }

  lemma {:induction false} PlacesCount<T>(s: seq<T>, p: T -> bool, i: nat, at: seq<nat>)
    requires Places(s, p, i, at)
    ensures |at| == Count(s[..i], p)
    decreases i
  {
    if i > 0 {
      var front := s[..i - 1];
      assert s[..i] == front + [s[i - 1]];
      CountOfSum(front, [s[i - 1]], p);
      assert Count([s[i - 1]], p) == if p(s[i - 1]) then 1 else 0;
      if p(s[i - 1]) {
        LastPlace(s, p, i, at);
        PlacesCount(s, p, i - 1, at[..|at| - 1]);
      } else {
        PlacesCount(s, p, i - 1, at);
      }
    }
  }

  lemma LastPlace<T>(s: seq<T>, p: T -> bool, i: nat, at: seq<nat>)
    requires Places(s, p, i, at) && i > 0 && p(s[i - 1])
    ensures at != [] && at[|at| - 1] == i - 1 && Places(s, p, i - 1, at[..|at| - 1])
  {
    var x :| 0 <= x < |at| && at[x] == i - 1;
    assert at[|at| - 1] < i;
    assert x == |at| - 1;
    forall j | 0 <= j < i - 1 && p(s[j]) ensures j in at[..|at| - 1] {
      var y :| 0 <= y < |at| && at[y] == j;
      assert at[..|at| - 1][y] == j;
    }
  }

  lemma FirstPlace<T>(s: seq<T>, p: T -> bool, at: seq<nat>)
    requires Places(s, p, |s|, at) && at != []
    ensures First(s, p) == at[0]
  {
    var f := First(s, p);
    assert p(s[at[0]]);
    assert f <= at[0];
    assert p(s[f]) && 0 <= f < |s|;
    assert f in at;
    var x :| 0 <= x < |at| && at[x] == f;
  }
}
