/** Decoded text: white space, trimming and lines as JavaScript has them. */
module Text {

  /** White space and line terminators of ECMA-262: what `trim` removes and `\s` matches. */
  predicate IsBlank(c: char) {
    var n := c as int;
    || 0x09 <= n <= 0x0D || n == 0x20 || n == 0xA0 || n == 0x1680 || 0x2000 <= n <= 0x200A
    || n == 0x2028 || n == 0x2029 || n == 0x202F || n == 0x205F || n == 0x3000 || n == 0xFEFF
  }

  /** The characters that ECMA-262 names, and the space separators of Unicode. */
  lemma BlankIff(c: char)
    ensures IsBlank(c) <==> c in {'\t', '\n', '\U{000B}', '\U{000C}', '\r', ' ', '\U{00A0}', '\U{1680}', '\U{2000}', '\U{2001}', '\U{2002}',
                                  '\U{2003}', '\U{2004}', '\U{2005}', '\U{2006}', '\U{2007}', '\U{2008}', '\U{2009}', '\U{200A}', '\U{2028}',
                                  '\U{2029}', '\U{202F}', '\U{205F}', '\U{3000}', '\U{FEFF}'}
  {
  }

  predicate AllBlank(s: string) {
    forall i :: 0 <= i < |s| ==> IsBlank(s[i])
  }

  /** Case folding as the `i` flag has it for ASCII words. */
  function Lower(c: char): char {
    if 'A' <= c <= 'Z' then ((c as int) + 32) as char else c
  }

  predicate SameLetters(s: string, word: string) {
    |s| == |word| && forall i :: 0 <= i < |s| ==> Lower(s[i]) == word[i]
  }

  /** Where the first character that is not blank stands, or the length. */
  function BlankPrefix(s: string): (i: nat)
    ensures i <= |s| && AllBlank(s[..i]) && (i < |s| ==> !IsBlank(s[i]))
  {
    if s == [] || !IsBlank(s[0]) then 0
    else
      var j := BlankPrefix(s[1..]);
      assert forall i :: 1 <= i <= j ==> s[i] == s[1..][..j][i - 1];
      j + 1
  }

  function TrimEnd(s: string): (r: string)
    ensures r <= s && AllBlank(s[|r|..]) && (r != [] ==> !IsBlank(r[|r| - 1]))
  {
    if s == [] || !IsBlank(s[|s| - 1]) then s
    else
      var r := TrimEnd(s[..|s| - 1]);
      assert forall i :: |r| <= i < |s| - 1 ==> s[i] == s[..|s| - 1][|r|..][i - |r|];
      r
  }

  function Trim(s: string): string {
    TrimEnd(s[BlankPrefix(s)..])
  }

  /** No blank at either end. */
  predicate IsTrimmed(s: string) {
    s != [] ==> !IsBlank(s[0]) && !IsBlank(s[|s| - 1])
  }

  lemma TrimTrims(s: string)
    ensures IsTrimmed(Trim(s)) && (Trim(s) == [] <==> AllBlank(s)) && (IsTrimmed(s) ==> Trim(s) == s)
  {
    var i := BlankPrefix(s);
    var t := s[i..];
    var r := TrimEnd(t);
    if r == [] {
      assert AllBlank(t[0..]) && t[0..] == t;
      assert s == s[..i] + t;
      assert i == |s|;
    } else {
      assert r[0] == t[0] == s[i];
    }
  }

  function FirstNewline(s: string): (i: nat)
    ensures i <= |s| && '\n' !in s[..i] && (i < |s| ==> s[i] == '\n')
  {
    if s == [] || s[0] == '\n' then 0
    else
      var j := FirstNewline(s[1..]);
      assert s[..j + 1] == [s[0]] + s[1..][..j];
      j + 1
  }

  lemma {:induction false} FirstNewlineOfSum(a: string, b: string)
    ensures FirstNewline(a) < |a| ==> FirstNewline(a + b) == FirstNewline(a)
    ensures FirstNewline(a) == |a| ==> FirstNewline(a + b) == |a| + FirstNewline(b)
  {
    if a == [] {
      assert a + b == b;
    } else if a[0] != '\n' {
      FirstNewlineOfSum(a[1..], b);
      assert (a + b)[1..] == a[1..] + b;
    }
  }

  /** `s.split("\n")`. */
  function Split(s: string): (ls: seq<string>)
    ensures ls != []
    decreases |s|
  {
    var i := FirstNewline(s);
    if i == |s| then [s] else [s[..i]] + Split(s[i + 1..])
  }

  lemma {:induction false} SplitHasNoNewline(s: string)
    ensures forall i :: 0 <= i < |Split(s)| ==> '\n' !in Split(s)[i]
    decreases |s|
  {
    var i := FirstNewline(s);
    if i < |s| {
      SplitHasNoNewline(s[i + 1..]);
    } else {
      assert s[..i] == s;
    }
  }

  /** `ls.join("\n")`. */
  function JoinLines(ls: seq<string>): string {
    if ls == [] then "" else if |ls| == 1 then ls[0] else ls[0] + "\n" + JoinLines(ls[1..])
  }

  lemma {:induction false} JoinOfSplit(s: string)
    ensures JoinLines(Split(s)) == s
    decreases |s|
  {
    var i := FirstNewline(s);
    if i < |s| {
      JoinOfSplit(s[i + 1..]);
      assert Split(s)[1..] == Split(s[i + 1..]);
      assert s == s[..i] + "\n" + s[i + 1..];
    }
  }

  lemma SplitStep(a: string, rest: string)
    requires '\n' !in a
    ensures Split(a + "\n" + rest) == [a] + Split(rest)
  {
    var s := a + "\n" + rest;
    NoNewline(a);
    assert s == a + ("\n" + rest);
    FirstNewlineOfSum(a, "\n" + rest);
    assert s[..|a|] == a && s[|a| + 1..] == rest;
  }

  lemma {:induction false} SplitOfJoin(ls: seq<string>)
    requires ls != [] && forall i :: 0 <= i < |ls| ==> '\n' !in ls[i]
    ensures Split(JoinLines(ls)) == ls
  {
    if |ls| == 1 {
      NoNewline(ls[0]);
    } else {
      SplitOfJoin(ls[1..]);
      SplitStep(ls[0], JoinLines(ls[1..]));
    }
  }

  lemma NoNewline(s: string)
    requires '\n' !in s
    ensures FirstNewline(s) == |s|
  {
  }
}
