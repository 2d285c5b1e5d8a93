/** JavaScript strings as the language compares them: sequences of UTF-16 code units. */
module JsText {

  type Unit = n: int | 0 <= n < 0x1_0000

  type JsString = seq<Unit>

  /** The bytes of a code point, section 3 of RFC 3629: a lead byte with the top bits, and six bits in each that follows. */
  function Encoded(n: nat): seq<nat> {
    if n <= 0x7F then [n]
    else if n <= 0x7FF then [0xC0 + n / 64, 0x80 + n % 64]
    else if n <= 0xFFFF then [0xE0 + n / 4096, 0x80 + n / 64 % 64, 0x80 + n % 64]
    else [0xF0 + n / 262144, 0x80 + n / 4096 % 64, 0x80 + n / 64 % 64, 0x80 + n % 64]
  }

  /** The default order of `Array.prototype.sort` and of `<`: lexicographic by code unit. */
  predicate Below(a: JsString, b: JsString) {
    if b == [] then false
    else if a == [] then true
    else a[0] < b[0] || (a[0] == b[0] && Below(a[1..], b[1..]))
  }

  /** `b` goes on where `a` ends, or has the larger code unit where they first differ. */
  predicate DiffersAt(a: JsString, b: JsString, n: nat) {
    n <= |a| && n < |b| && a[..n] == b[..n] && (n == |a| || a[n] < b[n])
  }

  lemma {:induction false} BelowIff(a: JsString, b: JsString)
    ensures Below(a, b) <==> exists n: nat :: DiffersAt(a, b, n)
  {
    if a == [] || b == [] || a[0] != b[0] {
      if Below(a, b) {
        assert DiffersAt(a, b, 0);
      }
      if n: nat :| DiffersAt(a, b, n) {
        assert n > 0 ==> a[..n][0] == b[..n][0];
      }
    } else {
      BelowIff(a[1..], b[1..]);
      if n: nat :| DiffersAt(a[1..], b[1..], n) {
        assert a[..n + 1] == [a[0]] + a[1..][..n] && b[..n + 1] == [b[0]] + b[1..][..n];
        assert DiffersAt(a, b, n + 1);
      }
      if n: nat :| DiffersAt(a, b, n) {
        assert a[1..][..n - 1] == a[..n][1..] && b[1..][..n - 1] == b[..n][1..];
        assert DiffersAt(a[1..], b[1..], n - 1);
      }
    }
  }

  lemma {:induction false} BelowIsIrreflexive(a: JsString)
    ensures !Below(a, a)
  {
    if a != [] {
      BelowIsIrreflexive(a[1..]);
    }
  }

  lemma {:induction false} BelowIsTransitive(a: JsString, b: JsString, c: JsString)
    requires Below(a, b) && Below(b, c)
    ensures Below(a, c)
  {
    if a != [] && a[0] == b[0] && b[0] == c[0] {
      BelowIsTransitive(a[1..], b[1..], c[1..]);
    }
  }

  /** Exactly one of `a < b`, `a == b`, `b < a` holds. */
  lemma {:induction false} BelowIsTotal(a: JsString, b: JsString)
    ensures Below(a, b) || a == b || Below(b, a)
    ensures !(Below(a, b) && Below(b, a))
  {
    if a != [] && b != [] && a[0] == b[0] {
      BelowIsTotal(a[1..], b[1..]);
      assert a == [a[0]] + a[1..] && b == [b[0]] + b[1..];
    }
  }

  /** Strictly ascending, hence free of repeats. */
  predicate Ascending(s: seq<JsString>) {
    forall i, j :: 0 <= i < j < |s| ==> Below(s[i], s[j])
  }

  /** Inserts a new string into an ascending list; a string already there is left alone. */
  function Insert(x: JsString, s: seq<JsString>): (r: seq<JsString>)
  {
    if s == [] then [x]
    else if Below(x, s[0]) then [x] + s
    else if x == s[0] then s
    else [s[0]] + Insert(x, s[1..])
  }

  lemma {:induction false} InsertKeepsAscending(x: JsString, s: seq<JsString>)
    requires Ascending(s)
    ensures Ascending(Insert(x, s))
    ensures forall y :: y in Insert(x, s) <==> y == x || y in s
  {
    if s != [] {
      BelowIsTotal(x, s[0]);
      if Below(x, s[0]) {
        forall j | 0 <= j < |s| ensures Below(x, s[j]) {
          if j > 0 { BelowIsTransitive(x, s[0], s[j]); }
        }
      } else if x != s[0] {
        InsertKeepsAscending(x, s[1..]);
        var t := Insert(x, s[1..]);
        forall y | y in t ensures Below(s[0], y) {
          if y != x {
            assert y in s[1..];
          }
        }
      }
    }
  }

  /** The members of a set in ascending order. */
  ghost function SortedSet(names: set<JsString>): (r: seq<JsString>)
  {
    if names == {} then []
    else
      var x :| x in names;
      Insert(x, SortedSet(names - {x}))
  }

  lemma {:induction false} SortedSetIsSorted(names: set<JsString>)
    ensures Ascending(SortedSet(names))
    ensures forall x :: x in SortedSet(names) <==> x in names
    ensures |SortedSet(names)| == |names|
    decreases |names|
  {
    if names != {} {
      var x :| x in names && SortedSet(names) == Insert(x, SortedSet(names - {x}));
      SortedSetIsSorted(names - {x});
      InsertKeepsAscending(x, SortedSet(names - {x}));
      InsertLength(x, SortedSet(names - {x}));
    }
  }

  lemma {:induction false} InsertLength(x: JsString, s: seq<JsString>)
    requires x !in s
    ensures |Insert(x, s)| == |s| + 1
  {
    if s != [] && !Below(x, s[0]) {
      InsertLength(x, s[1..]);
    }
  }

  /** An ascending list is determined by its members. */
  lemma {:induction false} AscendingIsUnique(s: seq<JsString>, t: seq<JsString>)
    requires Ascending(s) && Ascending(t)
    requires forall x :: x in s <==> x in t
    ensures s == t
  {
    if s == [] {
      assert forall i :: 0 <= i < |t| ==> t[i] in t;
    } else {
      assert s[0] in t;
      assert t[0] in s;
      BelowIsTotal(s[0], t[0]);
      BelowIsIrreflexive(s[0]);
      assert s[0] == t[0];
      forall x ensures x in s[1..] <==> x in t[1..] {
        if x in s[1..] { assert x in s; BelowIsIrreflexive(x); assert x in t && x != t[0]; }
        if x in t[1..] { assert x in t; BelowIsIrreflexive(x); assert x in s && x != s[0]; }
      }
      AscendingIsUnique(s[1..], t[1..]);
    }
  }
}
