/** What is new in a pane window: the previous window aligned against the current one. */
module Delta {

  const DELTA_LINES := 100

  function Least(a: int, b: int): int {
    if a <= b then a else b
  }

  /** `current.slice(from, from + DELTA_LINES)`. */
  function Window(current: seq<string>, from: nat): seq<string>
    requires from <= |current|
  {
    current[from..Least(|current|, from + DELTA_LINES)]
  }

  /** The last `k` lines before are the first `k` lines now. */
  predicate Overlaps(previous: seq<string>, current: seq<string>, k: nat) {
    k <= |previous| && k <= |current| && previous[|previous| - k..] == current[..k]
  }

  /** The longest overlap, searching downwards from `k`. */
  function LongestFrom(previous: seq<string>, current: seq<string>, k: nat): (r: nat)
    requires k <= |previous| && k <= |current|
    ensures r <= k && Overlaps(previous, current, r) && forall j :: r < j <= k ==> !Overlaps(previous, current, j)
  {
    if k == 0 || Overlaps(previous, current, k) then k else LongestFrom(previous, current, k - 1)
  }

  function Longest(previous: seq<string>, current: seq<string>): (r: nat)
    ensures r <= |previous| && r <= |current|
  {
    LongestFrom(previous, current, Least(|previous|, |current|))
  }

  function SamePrefix(previous: seq<string>, current: seq<string>): (k: nat)
    ensures k <= |previous| && k <= |current| && previous[..k] == current[..k]
    ensures k < |previous| && k < |current| ==> previous[k] != current[k]
  {
    if previous == [] || current == [] || previous[0] != current[0] then 0
    else
      var j := SamePrefix(previous[1..], current[1..]);
      assert previous[..j + 1] == [previous[0]] + previous[1..][..j] && current[..j + 1] == [current[0]] + current[1..][..j];
      j + 1
  }

  function LastLines(current: seq<string>, from: nat): seq<string>
    requires from <= |current|
  {
    var start := |current| - DELTA_LINES;
    current[if start > from then start else from..]
  }

  function DeltaLines(previous: seq<string>, current: seq<string>): seq<string> {
    if previous == [] then LastLines(current, 0)
    else if previous <= current then Window(current, |previous|)
    else if Longest(previous, current) > 0 then Window(current, Longest(previous, current))
    else LastLines(current, SamePrefix(previous, current))
  }

  method CommonPrefix(previous: seq<string>, current: seq<string>) returns (index: nat)
    ensures index == SamePrefix(previous, current)
  {
    index := 0;
    while index < |previous| && index < |current| && previous[index] == current[index]
      invariant index <= |previous| && index <= |current|
      invariant index + SamePrefix(previous[index..], current[index..]) == SamePrefix(previous, current)
    {
      assert previous[index..][1..] == previous[index + 1..] && current[index..][1..] == current[index + 1..];
      index := index + 1;
    }
  }

  method AlignedDelta(previous: seq<string>, current: seq<string>) returns (r: seq<string>)
    ensures r == DeltaLines(previous, current)
  {
    if |previous| == 0 { return LastLines(current, 0); }
    if |current| >= |previous| && previous == current[..|previous|] {
      return Window(current, |previous|);
    }
    var overlap: nat := if |previous| <= |current| then |previous| else |current|;
    while overlap > 0
      invariant overlap <= |previous| && overlap <= |current|
      invariant LongestFrom(previous, current, overlap) == Longest(previous, current)
    {
      var priorTail := previous[|previous| - overlap..];
      if priorTail == current[..overlap] {
        return Window(current, overlap);
      }
      overlap := overlap - 1;
    }
    var prefix := CommonPrefix(previous, current);
    if prefix == |current| { return []; }
    return LastLines(current, prefix);
  }

  // ---- What the delta promises ---------------------------------------------------------------

  /** The fast path gives what the overlap search would. */
  lemma FastPathAgrees(previous: seq<string>, current: seq<string>)
    requires previous != [] && previous <= current
    ensures Longest(previous, current) == |previous| && DeltaLines(previous, current) == Window(current, Longest(previous, current))
  {
    assert Overlaps(previous, current, |previous|);
  }

  /** No longer overlap is passed over. */
  lemma LongestIsLongest(previous: seq<string>, current: seq<string>, k: nat)
    requires Overlaps(previous, current, k)
    ensures k <= Longest(previous, current) && Overlaps(previous, current, Longest(previous, current))
  {
  }

  /** Where the delta starts in the current window. */
  function StartOf(previous: seq<string>, current: seq<string>): (s: nat)
    ensures s <= |current|
  {
    if previous != [] && Longest(previous, current) > 0 then Longest(previous, current)
    else
      var from := if previous == [] then 0 else SamePrefix(previous, current);
      if |current| - DELTA_LINES > from then |current| - DELTA_LINES else from
  }

  /** On every pair of windows the delta is a run of at most 100 lines of the current one. */
  lemma DeltaIsARun(previous: seq<string>, current: seq<string>)
    ensures DeltaLines(previous, current) == Window(current, StartOf(previous, current)) && |DeltaLines(previous, current)| <= DELTA_LINES
  {
    if previous != [] && previous <= current {
      FastPathAgrees(previous, current);
    }
  }

  /**
   When the window has only scrolled, dropping some lines in front and gaining others behind, every
   line of the delta is a new one; and when no longer overlap misleads it, the delta is the first 100
   new lines.
   */
  lemma ScrolledDeltaIsNew(previous: seq<string>, dropped: nat, added: seq<string>)
    requires dropped <= |previous|
    ensures var current, kept := previous[dropped..] + added, |previous| - dropped;
            && kept <= StartOf(previous, current)
            && DeltaLines(previous, current) == added[StartOf(previous, current) - kept..Least(|added|, StartOf(previous, current) - kept + DELTA_LINES)]
            && (Longest(previous, current) == kept > 0 ==> DeltaLines(previous, current) == added[..Least(|added|, DELTA_LINES)])
  {
    var current, kept := previous[dropped..] + added, |previous| - dropped;
    assert current[..kept] == previous[dropped..];
    assert Overlaps(previous, current, kept);
    LongestIsLongest(previous, current, kept);
    DeltaIsARun(previous, current);
    assert current[kept..] == added;
    var s := StartOf(previous, current);
    assert Window(current, s) == current[kept..][s - kept..Least(|added|, s - kept + DELTA_LINES)];
  }

  /** Only the lines that stayed overlap, and where none stayed the first lines differ. */
  ghost predicate Unmistakable(previous: seq<string>, dropped: nat, added: seq<string>)
    requires dropped <= |previous|
  {
    var current, kept := previous[dropped..] + added, |previous| - dropped;
    && (forall k :: kept < k ==> !Overlaps(previous, current, k))
    && (kept > 0 || previous == [] || added == [] || previous[0] != added[0])
  }

  /**
   For every window that has only scrolled: the delta is exactly the new lines, exactly when there
   are at most 100 of them and neither a longer overlap nor an equal first line misleads it.
   */
  lemma AllNewsIff(previous: seq<string>, dropped: nat, added: seq<string>)
    requires dropped <= |previous|
    ensures DeltaLines(previous, previous[dropped..] + added) == added <==> |added| <= DELTA_LINES && Unmistakable(previous, dropped, added)
  {
    var current, kept := previous[dropped..] + added, |previous| - dropped;
    ScrolledDeltaIsNew(previous, dropped, added);
    DeltaIsARun(previous, current);
    var s, l := StartOf(previous, current), Longest(previous, current);
    assert Overlaps(previous, current, kept) by {
      assert current[..kept] == previous[dropped..];
    }
    forall k | kept < k && Overlaps(previous, current, k) ensures k <= l {
      LongestIsLongest(previous, current, k);
    }
    LongestIsLongest(previous, current, kept);
    assert |DeltaLines(previous, current)| == Least(|current|, s + DELTA_LINES) - s;
    if kept == 0 {
      assert current == added;
    }
  }

  /** A repeated line can make a longer overlap than the true one, and then a new line goes unreported. */
  lemma RepeatedLineHidesNews()
    ensures var previous := ["a", "b", "b"];
            var current := previous[2..] + ["b", "c"];
            Longest(previous, current) == 2 && DeltaLines(previous, current) == ["c"]
  {
    var previous := ["a", "b", "b"];
    var current := previous[2..] + ["b", "c"];
    assert current == ["b", "b", "c"];
    assert previous[3 - 2..] == ["b", "b"] == current[..2];
    assert previous[3 - 3..] == previous && current[..3] == current && previous[0] != current[0];
    assert !Overlaps(previous, current, 3) && Overlaps(previous, current, 2);
    assert LongestFrom(previous, current, 3) == LongestFrom(previous, current, 2) == 2;
  }
}
