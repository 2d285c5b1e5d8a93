/** The patterns of the handoff artifact as the source writes them, and that the predicates on lines say the same. */
module Patterns {
  import opened Artifact
  import opened Options
  import opened Text

  // ---- The heading pattern and its group ---------------------------------------------------

  /** `.` */
  predicate IsDot(c: char) {
    c !in {'\n', '\r', '\U{2028}', '\U{2029}'}
  }

  predicate AllDots(s: string) {
    forall i :: 0 <= i < |s| ==> IsDot(s[i])
  }

  /** Where the pattern can match behind the hashes: blanks up to `m`, the name up to `n`, then blanks. */
  ghost predicate Fits(after: string, m: nat, n: nat) {
    0 < m < n <= |after| && AllBlank(after[..m]) && AllDots(after[m..n]) && AllBlank(after[n..])
  }

  /** What is found first: the blanks before the name are taken greedily, the name lazily. */
  ghost predicate FitsFirst(after: string, m: nat, n: nat) {
    Fits(after, m, n) && forall b: nat, e: nat :: Fits(after, b, e) ==> b < m || (b == m && n <= e)
  }

  /** Where the whole pattern matches. */
  ghost predicate Captures(line: string, k: nat, m: nat, n: nat) {
    1 <= k <= 6 && k <= |line| && (forall i :: 0 <= i < k ==> line[i] == '#') && FitsFirst(line[k..], m, n)
  }

  lemma {:induction false} LastDotIs(blanks: string)
    ensures LastDot(blanks).None? ==> forall i :: 1 <= i < |blanks| ==> !IsDot(blanks[i])
    ensures LastDot(blanks).Some? ==> exists i :: 1 <= i < |blanks| && blanks[i] == LastDot(blanks).value && IsDot(blanks[i])
                                                  && forall j :: i < j < |blanks| ==> !IsDot(blanks[j])
  {
    if |blanks| > 1 && IsTerminator(blanks[|blanks| - 1]) {
      LastDotIs(blanks[..|blanks| - 1]);
    }
  }

  /** Behind the hashes only blanks: the name is the last of them that is a dot. */
  lemma BlankName(after: string) returns (m: nat, n: nat)
    requires AllBlank(after) && LastDot(after).Some?
    ensures FitsFirst(after, m, n) && after[m..n] == [LastDot(after).value]
  {
    LastDotIs(after);
    m :| 1 <= m < |after| && after[m] == LastDot(after).value && IsDot(after[m]) && forall j :: m < j < |after| ==> !IsDot(after[j]);
    n := m + 1;
    assert after[m..n] == [after[m]];
    forall b: nat, e: nat | Fits(after, b, e) ensures b < m || (b == m && n <= e) {
      assert after[b..e][0] == after[b];
    }
  }

  /** Where the text between blanks stands. */
  lemma TrimIs(after: string) returns (m: nat, n: nat)
    requires !AllBlank(after)
    ensures m < n <= |after| && AllBlank(after[..m]) && after[m..n] == Trim(after) && AllBlank(after[n..])
    ensures !IsBlank(after[m]) && !IsBlank(after[n - 1])
  {
    TrimTrims(after);
    m := BlankPrefix(after);
    n := m + |Trim(after)|;
    assert after[m..][..n - m] == after[m..n] && after[m..][n - m..] == after[n..];
    assert after[m..n][0] == after[m] && after[m..n][n - m - 1] == after[n - 1];
  }

  lemma WrittenFits(after: string, m: nat, n: nat, b: nat, e: nat)
    requires m < n <= |after| && AllBlank(after[n..]) && AllBlank(after[..m]) && !IsBlank(after[m]) && !IsBlank(after[n - 1])
    requires Fits(after, b, e)
    ensures b <= m && n <= e
  {
    assert forall i :: 0 <= i < b ==> IsBlank(after[i]) by {
      assert forall i :: 0 <= i < b ==> after[i] == after[..b][i];
    }
    assert forall i :: e <= i < |after| ==> IsBlank(after[i]) by {
      assert forall i :: e <= i < |after| ==> after[i] == after[e..][i - e];
    }
  }

  lemma WrittenName(after: string) returns (m: nat, n: nat)
    requires after != [] && IsBlank(after[0]) && !AllBlank(after) && AllDots(Trim(after))
    ensures FitsFirst(after, m, n) && after[m..n] == Trim(after)
  {
    m, n := TrimIs(after);
    forall b: nat, e: nat | Fits(after, b, e) ensures b < m || (b == m && n <= e) {
      WrittenFits(after, m, n, b, e);
    }
  }

  /** Where the pattern matches, there is a name. */
  lemma FittingHasName(after: string, b: nat, e: nat)
    requires Fits(after, b, e)
    ensures IsBlank(after[0]) && if AllBlank(after) then LastDot(after).Some? else NoTerminator(Trim(after))
  {
    assert after[..b][0] == after[0] && after[b..e][0] == after[b];
    if AllBlank(after) {
      LastDotIs(after);
    } else {
      var m, n := TrimIs(after);
      WrittenFits(after, m, n, b, e);
      forall i | 0 <= i < n - m ensures !IsTerminator(after[m..n][i]) {
        assert after[m..n][i] == after[b..e][m - b + i];
      }
    }
  }

  lemma HashesAre(line: string, k: nat, m: nat, n: nat)
    requires Captures(line, k, m, n)
    ensures Hashes(line) == k && IsBlank(line[k])
  {
    assert line[k..][..m][0] == line[k];
  }

  lemma NameIsCaptured(line: string) returns (m: nat, n: nat)
    requires IsHeading(line)
    ensures Captures(line, Hashes(line), m, n) && HeadingName(line) == Some(line[Hashes(line)..][m..n])
  {
    var after := line[Hashes(line)..];
    if AllBlank(after) {
      m, n := BlankName(after);
    } else {
      m, n := WrittenName(after);
    }
  }

  /** A line is a heading of this name exactly when the pattern's group captures it. */
  lemma HeadingIff(line: string, name: string)
    ensures HeadingName(line) == Some(name) <==> exists k: nat, m: nat, n: nat :: Captures(line, k, m, n) && name == line[k..][m..n]
  {
    if HeadingName(line) == Some(name) {
      var m, n := NameIsCaptured(line);
    }
    if k: nat, m: nat, n: nat :| Captures(line, k, m, n) && name == line[k..][m..n] {
      HashesAre(line, k, m, n);
      FittingHasName(line[k..], m, n);
      var b, e := NameIsCaptured(line);
      assert b == m && e == n;
    }
  }

  // ---- The other patterns --------------------------------------------------------------------

  /** A pattern anchored at both ends. */
  datatype Pattern =
    | Word(letters: string)
    | AnyCase(letters: string)
    | Many(of: char -> bool, least: nat)
    | Then(first: Pattern, next: Pattern)
    | Either(left: Pattern, right: Pattern)

  ghost predicate Matches(p: Pattern, s: string) {
    match p
    case Word(w) => s == w
    case AnyCase(w) => |s| == |w| && forall i :: 0 <= i < |s| ==> s[i] == w[i] || ('a' <= w[i] <= 'z' && s[i] as int == w[i] as int - 32)
    case Many(of, least) => least <= |s| && forall i :: 0 <= i < |s| ==> of(s[i])
    case Then(a, b) => exists i :: 0 <= i <= |s| && Matches(a, s[..i]) && Matches(b, s[i..])
    case Either(a, b) => Matches(a, s) || Matches(b, s)
  }

  ghost predicate Marker(s: string) {
    Matches(Then(Word("herdr-run:"), Many(c => !IsBlank(c), 1)), s)
  }

  ghost predicate Bracketed(s: string) {
    Matches(Then(Word("<"), Then(Many(c => c != '>', 0), Word(">"))), s)
  }

  ghost predicate Filler(s: string) {
    exists w :: w in ["todo", "tbd", "fixme", "placeholder", "n/a"] && Matches(AnyCase(w), s)
  }

  /** The pattern of an entry is anchored in front only. */
  ghost predicate Entry(s: string) {
    Matches(Then(Word("-"), Then(Many(IsBlank, 1), Then(Many(c => !IsBlank(c), 1), Many(c => true, 0)))), s)
  }

  lemma ThenIff(a: Pattern, b: Pattern, s: string)
    ensures Matches(Then(a, b), s) <==> exists i :: 0 <= i <= |s| && Matches(a, s[..i]) && Matches(b, s[i..])
  {
  }

  /** A word comes first exactly when the text starts with it. */
  lemma WordThenIff(w: string, b: Pattern, s: string)
    ensures Matches(Then(Word(w), b), s) <==> w <= s && Matches(b, s[|w|..])
  {
    if w <= s {
      assert s[..|w|] == w;
    }
    ThenIff(Word(w), b, s);
  }

  lemma SameLettersIff(s: string, word: string)
    requires forall i :: 0 <= i < |word| ==> !('A' <= word[i] <= 'Z')
    ensures SameLetters(s, word) <==> Matches(AnyCase(word), s)
  {
  }

  lemma NoneIff(s: string)
    ensures IsNone(s) <==> Matches(AnyCase("none"), s)
  {
    SameLettersIff(s, "none");
  }

  lemma FillerIff(s: string)
    ensures Filler(s) <==> SameLetters(s, "todo") || SameLetters(s, "tbd") || SameLetters(s, "fixme") || SameLetters(s, "placeholder") || SameLetters(s, "n/a")
  {
    var words := ["todo", "tbd", "fixme", "placeholder", "n/a"];
    assert words[0] in words && words[1] in words && words[2] in words && words[3] in words && words[4] in words;
    SameLettersIff(s, "todo");
    SameLettersIff(s, "tbd");
    SameLettersIff(s, "fixme");
    SameLettersIff(s, "placeholder");
    SameLettersIff(s, "n/a");
  }

  lemma ClosedIff(t: string)
    ensures Matches(Then(Many(c => c != '>', 0), Word(">")), t) <==> t != [] && t[|t| - 1] == '>' && '>' !in t[..|t| - 1]
  {
    var open := Many(c => c != '>', 0);
    ThenIff(open, Word(">"), t);
    if i :| 0 <= i <= |t| && Matches(open, t[..i]) && Matches(Word(">"), t[i..]) {
      assert t[i..] == ">" && i == |t| - 1;
      assert t[i] == t[i..][0];
      assert '>' !in t[..i];
    }
    if t != [] && t[|t| - 1] == '>' && '>' !in t[..|t| - 1] {
      assert Matches(open, t[..|t| - 1]);
      assert t[|t| - 1..] == ">";
    }
  }

  lemma BracketedIff(s: string)
    ensures Bracketed(s) <==> |s| >= 2 && s[0] == '<' && s[|s| - 1] == '>' && '>' !in s[..|s| - 1]
  {
    WordThenIff("<", Then(Many(c => c != '>', 0), Word(">")), s);
    if "<" <= s {
      var t := s[1..];
      ClosedIff(t);
      assert s[0] == "<"[0];
      if t != [] {
        assert s[..|s| - 1] == "<" + t[..|t| - 1];
      }
    }
  }

  /** A body is a placeholder in brackets, dots, or one of five words in any letter case. */
  lemma PlaceholderIff(s: string)
    ensures IsPlaceholder(s) <==> Bracketed(s) || Matches(Many(c => c == '.', 2), s) || Filler(s)
  {
    BracketedIff(s);
    FillerIff(s);
  }

  lemma MarkerIff(line: string)
    ensures IsMarker(line) <==> Marker(Trim(line))
  {
    var t := Trim(line);
    WordThenIff("herdr-run:", Many(c => !IsBlank(c), 1), t);
    if "herdr-run:" <= t {
      assert forall j :: 10 <= j < |t| ==> t[j] == t[10..][j - 10];
    }
  }

  /** Text that starts with something not blank. */
  lemma SomethingIff(v: string)
    ensures Matches(Then(Many(c => !IsBlank(c), 1), Many(c => true, 0)), v) <==> v != [] && !IsBlank(v[0])
  {
    var some, all := Many(c => !IsBlank(c), 1), Many(c => true, 0);
    ThenIff(some, all, v);
    if i :| 0 <= i <= |v| && Matches(some, v[..i]) && Matches(all, v[i..]) {
      assert v[0] == v[..i][0];
    }
    if v != [] && !IsBlank(v[0]) {
      assert Matches(some, v[..1]) && Matches(all, v[1..]);
    }
  }

  /** Blanks, then something. */
  lemma SpacedIff(u: string)
    ensures var p := Then(Many(IsBlank, 1), Then(Many(c => !IsBlank(c), 1), Many(c => true, 0)));
            Matches(p, u) <==> u != [] && IsBlank(u[0]) && !AllBlank(u)
  {
    var gap, rest := Many(IsBlank, 1), Then(Many(c => !IsBlank(c), 1), Many(c => true, 0));
    ThenIff(gap, rest, u);
    if j :| 0 <= j <= |u| && Matches(gap, u[..j]) && Matches(rest, u[j..]) {
      SomethingIff(u[j..]);
      assert u[0] == u[..j][0] && u[j..][0] == u[j];
    }
    if u != [] && IsBlank(u[0]) && !AllBlank(u) {
      var j := BlankPrefix(u);
      assert j == |u| ==> u[..j] == u;
      SomethingIff(u[j..]);
      assert Matches(gap, u[..j]);
    }
  }

  lemma EntryIff(t: string)
    ensures IsEntry(t) <==> Entry(t)
  {
    WordThenIff("-", Then(Many(IsBlank, 1), Then(Many(c => !IsBlank(c), 1), Many(c => true, 0))), t);
    if "-" <= t {
      SpacedIff(t[1..]);
      assert t[0] == "-"[0];
    }
  }
}
