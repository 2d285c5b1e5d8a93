/**
 Fitting texts into byte budgets: the longest code-point prefix whose JSON text fits, and the bounded
 semantic-review projection.

 `Tail` stands for `truncateTail` of the host's package, of which only one thing is taken for
 granted, and only where it is named: that it leaves a text within both its bounds alone.
 */
module Bounds {
  import opened JsText
  import opened Canonical

  // ---- Sizes ---------------------------------------------------------------------------

  function UnitWidth(u: Unit): nat {
    if u < 0x80 then 1 else if u < 0x800 then 2 else 3
  }

  /** `Buffer.byteLength(s, "utf8")`; a lone surrogate counts as U+FFFD. */
  function Utf8Length(s: JsString): nat {
    if s == [] then 0
    else if |s| >= 2 && IsHigh(s[0]) && IsLow(s[1]) then 4 + Utf8Length(s[2..])
    else UnitWidth(s[0]) + Utf8Length(s[1..])
  }

  /** The code point of a character; a surrogate that stands alone is replaced by U+FFFD. */
  function CodePoint(c: JsString): nat
    requires IsCharacter(c)
  {
    if |c| == 2 then 0x1_0000 + (c[0] as int - 0xD800) * 0x400 + (c[1] as int - 0xDC00)
    else if 0xD800 <= c[0] <= 0xDFFF then 0xFFFD
    else c[0]
  }

  function EncodedAll(cs: seq<JsString>): seq<nat>
    requires forall i :: 0 <= i < |cs| ==> IsCharacter(cs[i])
  {
    if cs == [] then [] else Encoded(CodePoint(cs[0])) + EncodedAll(cs[1..])
  }

  /** The length of well cut characters is the number of their bytes. */
  lemma {:induction false} BytesAreEncoded(cs: seq<JsString>)
    requires WellCut(cs)
    ensures Utf8Length(Join(cs)) == |EncodedAll(cs)|
  {
    if cs != [] {
      BytesAreEncoded(cs[1..]);
      var s := Join(cs);
      if |cs[0]| == 2 {
        assert s[2..] == Join(cs[1..]);
      } else {
        assert s[1..] == Join(cs[1..]);
        assert |s| >= 2 ==> cs[1..] != [] && s[1] == cs[1][0];
      }
    }
  }

  /** `jsonBytes` of a string. */
  function JsonBytes(s: JsString): nat {
    Utf8Length(Quote(s))
  }

  /** `Array.from(s)`: the code points, each as a string of one or two units. */
  function Characters(s: JsString): seq<JsString> {
    if s == [] then []
    else if |s| >= 2 && IsHigh(s[0]) && IsLow(s[1]) then [s[..2]] + Characters(s[2..])
    else [s[..1]] + Characters(s[1..])
  }

  function Join(cs: seq<JsString>): JsString {
    if cs == [] then [] else cs[0] + Join(cs[1..])
  }

  predicate IsCharacter(c: JsString) {
    |c| == 1 || (|c| == 2 && IsHigh(c[0]) && IsLow(c[1]))
  }

  /** These characters are the code points of their join: no high surrogate stands alone before a low one. */
  predicate WellCut(cs: seq<JsString>) {
    && (forall i :: 0 <= i < |cs| ==> IsCharacter(cs[i]))
    && (forall i :: 0 <= i < |cs| - 1 && |cs[i]| == 1 && IsHigh(cs[i][0]) ==> !IsLow(cs[i + 1][0]))
  }

  function QuoteCharacter(c: JsString): JsString
    requires IsCharacter(c)
  {
    if |c| == 2 then c else QuoteUnit(c[0])
  }

  function Cost(c: JsString): (n: nat)
    requires IsCharacter(c)
    ensures 1 <= n <= 6
  {
    if |c| == 2 then 4
    else
      var u := c[0];
      if u == QUOTE || u == BACKSLASH || u == 0x08 || u == 0x0C || u == 0x0A || u == 0x0D || u == 0x09 then 2
      else if u < 0x20 || IsHigh(u) || IsLow(u) then 6
      else UnitWidth(u)
  }

  function CostSum(cs: seq<JsString>): nat
    requires forall i :: 0 <= i < |cs| ==> IsCharacter(cs[i])
  {
    if cs == [] then 0 else Cost(cs[0]) + CostSum(cs[1..])
  }

  lemma {:induction false} CharactersAreWellCut(s: JsString)
    ensures WellCut(Characters(s)) && Join(Characters(s)) == s
    ensures s != [] ==> Characters(s) != [] && Characters(s)[0][0] == s[0]
  {
    if s == [] {
    } else if |s| >= 2 && IsHigh(s[0]) && IsLow(s[1]) {
      CharactersAreWellCut(s[2..]);
    } else {
      CharactersAreWellCut(s[1..]);
    }
  }

  /** Cutting the join of well cut characters gives them back. */
  lemma {:induction false} CharactersOfJoin(cs: seq<JsString>)
    requires WellCut(cs)
    ensures Characters(Join(cs)) == cs
  {
    if cs != [] {
      CharactersOfJoin(cs[1..]);
    }
  }

  /** Lengths add up where no surrogate pair straddles the seam. */
  lemma {:induction false} Utf8Sum(a: JsString, b: JsString)
    requires a == [] || !IsHigh(a[|a| - 1])
    ensures Utf8Length(a + b) == Utf8Length(a) + Utf8Length(b)
    decreases |a|
  {
    if a == [] {
      assert a + b == b;
    } else if |a| >= 2 && IsHigh(a[0]) && IsLow(a[1]) {
      Utf8Sum(a[2..], b);
      assert (a + b)[2..] == a[2..] + b;
    } else {
      assert |a| == 1 ==> !IsHigh(a[0]);
      Utf8Sum(a[1..], b);
      assert (a + b)[1..] == a[1..] + b;
    }
  }

  lemma QuotedCharacterCosts(c: JsString)
    requires IsCharacter(c)
    ensures Utf8Length(QuoteCharacter(c)) == Cost(c) && QuoteCharacter(c) != [] && !IsHigh(QuoteCharacter(c)[|QuoteCharacter(c)| - 1])
  {
    if |c| == 2 {
      assert c[2..] == [];
    } else {
      UnitCosts(c[0]);
    }
  }

  lemma UnitCosts(u: Unit)
    ensures Utf8Length(QuoteUnit(u)) == Cost([u]) && QuoteUnit(u) != [] && !IsHigh(QuoteUnit(u)[|QuoteUnit(u)| - 1])
  {
    var q := QuoteUnit(u);
    if |q| == 6 {
      AsciiLength(q);
    } else if |q| == 2 {
      AsciiLength(q);
    }
  }

  lemma {:induction false} AsciiLength(s: JsString)
    requires forall i :: 0 <= i < |s| ==> s[i] < 0x80
    ensures Utf8Length(s) == |s|
  {
    if s != [] {
      AsciiLength(s[1..]);
    }
  }

  lemma {:induction false} BodyCosts(cs: seq<JsString>)
    requires WellCut(cs)
    ensures Utf8Length(QuoteBody(Join(cs)) + [QUOTE]) == CostSum(cs) + 1
  {
    if cs == [] {
      assert QuoteBody(Join(cs)) + [QUOTE] == [QUOTE];
      AsciiLength([QUOTE]);
    } else {
      BodyCosts(cs[1..]);
      QuotedCharacterCosts(cs[0]);
      var rest := QuoteBody(Join(cs[1..])) + [QUOTE];
      assert QuoteBody(Join(cs)) == QuoteCharacter(cs[0]) + QuoteBody(Join(cs[1..]));
      Utf8Sum(QuoteCharacter(cs[0]), rest);
      assert QuoteBody(Join(cs)) + [QUOTE] == QuoteCharacter(cs[0]) + rest;
    }
  }

  /** The JSON text of a string costs two quotes and what each of its code points costs. */
  lemma JsonBytesOfCharacters(cs: seq<JsString>)
    requires WellCut(cs)
    ensures JsonBytes(Join(cs)) == CostSum(cs) + 2
  {
    BodyCosts(cs);
    var body := QuoteBody(Join(cs)) + [QUOTE];
    assert Quote(Join(cs)) == [QUOTE] + body;
    Utf8Sum([QUOTE], body);
    AsciiLength([QUOTE]);
  }

  // ---- The longest prefix that fits ------------------------------------------------------

  lemma {:induction false} CostSumOfSum(a: seq<JsString>, b: seq<JsString>)
    requires forall i :: 0 <= i < |a| ==> IsCharacter(a[i])
    requires forall i :: 0 <= i < |b| ==> IsCharacter(b[i])
    ensures forall i :: 0 <= i < |a + b| ==> IsCharacter((a + b)[i])
    ensures CostSum(a + b) == CostSum(a) + CostSum(b)
  {
    if a == [] {
      assert a + b == b;
    } else {
      CostSumOfSum(a[1..], b);
      assert (a + b)[1..] == a[1..] + b;
    }
  }

  /** Longer prefixes have strictly longer JSON texts. */
  lemma PrefixesGrow(cs: seq<JsString>, j: nat, k: nat)
    requires WellCut(cs) && j < k <= |cs|
    ensures JsonBytes(Join(cs[..j])) < JsonBytes(Join(cs[..k]))
  {
    JsonBytesOfCharacters(cs[..j]);
    JsonBytesOfCharacters(cs[..k]);
    assert cs[..k] == cs[..j] + cs[j..k];
    CostSumOfSum(cs[..j], cs[j..k]);
  }

  ghost predicate Fits(cs: seq<JsString>, k: nat, maxBytes: int)
    requires k <= |cs|
  {
    JsonBytes(Join(cs[..k])) <= maxBytes
  }

  /** The longest prefix that fits, or the empty one. */
  ghost predicate IsLongest(cs: seq<JsString>, k: nat, maxBytes: int) {
    && k <= |cs|
    && (k > 0 ==> Fits(cs, k, maxBytes))
    && forall j :: k < j <= |cs| ==> !Fits(cs, j, maxBytes)
  }

  /** One pass, left to right: take characters while the budget lasts. */
  function Greedy(cs: seq<JsString>, budget: int): (k: nat)
    requires forall i :: 0 <= i < |cs| ==> IsCharacter(cs[i])
    ensures k <= |cs|
  {
    if cs == [] || Cost(cs[0]) > budget then 0 else 1 + Greedy(cs[1..], budget - Cost(cs[0]))
  }

  lemma {:induction false} GreedyCosts(cs: seq<JsString>, budget: int, j: nat)
    requires (forall i :: 0 <= i < |cs| ==> IsCharacter(cs[i])) && j <= |cs|
    ensures budget >= 0 ==> (CostSum(cs[..j]) <= budget <==> j <= Greedy(cs, budget))
    ensures budget < 0 ==> Greedy(cs, budget) == 0
  {
    if j > 0 {
      assert cs[..j][1..] == cs[1..][..j - 1];
      if Cost(cs[0]) <= budget {
        GreedyCosts(cs[1..], budget - Cost(cs[0]), j - 1);
      }
    }
  }

  function Fit(value: JsString, maxBytes: int): JsString {
    CharactersAreWellCut(value);
    Join(Characters(value)[..Greedy(Characters(value), maxBytes - 2)])
  }

  lemma GreedyIsLongest(cs: seq<JsString>, maxBytes: int)
    requires WellCut(cs)
    ensures IsLongest(cs, Greedy(cs, maxBytes - 2), maxBytes)
  {
    forall j | 0 <= j <= |cs| ensures j > 0 ==> (Fits(cs, j, maxBytes) <==> j <= Greedy(cs, maxBytes - 2)) {
      JsonBytesOfCharacters(cs[..j]);
      GreedyCosts(cs, maxBytes - 2, j);
    }
  }

  lemma LongestIsUnique(cs: seq<JsString>, j: nat, k: nat, maxBytes: int)
    requires IsLongest(cs, j, maxBytes) && IsLongest(cs, k, maxBytes)
    ensures j == k
  {
  }

  /** A text is fitted exactly when its JSON text is within the bound; a bound of two or more is always met. */
  lemma FitFits(value: JsString, maxBytes: int)
    ensures maxBytes >= 2 ==> JsonBytes(Fit(value, maxBytes)) <= maxBytes
    ensures JsonBytes(value) <= maxBytes ==> Fit(value, maxBytes) == value
    ensures Fit(value, maxBytes) <= value
    ensures Fit(Fit(value, maxBytes), maxBytes) == Fit(value, maxBytes)
  {
    var cs := Characters(value);
    CharactersAreWellCut(value);
    var k := Greedy(cs, maxBytes - 2);
    GreedyIsLongest(cs, maxBytes);
    if k == 0 {
      JsonBytesOfCharacters(cs[..0]);
    }
    if JsonBytes(value) <= maxBytes {
      assert cs[..|cs|] == cs;
      assert Fits(cs, |cs|, maxBytes);
    }
    JoinOfPrefix(cs, k);
    FitAgain(cs, k, maxBytes);
  }

  lemma {:induction false} JoinOfPrefix(cs: seq<JsString>, k: nat)
    requires k <= |cs|
    ensures Join(cs[..k]) <= Join(cs)
  {
    if k > 0 {
      JoinOfPrefix(cs[1..], k - 1);
      assert cs[..k][1..] == cs[1..][..k - 1];
    }
  }

  lemma FitAgain(cs: seq<JsString>, k: nat, maxBytes: int)
    requires WellCut(cs) && k == Greedy(cs, maxBytes - 2)
    ensures Fit(Join(cs[..k]), maxBytes) == Join(cs[..k])
  {
    CharactersOfJoin(cs[..k]);
    GreedyOfPrefix(cs, maxBytes - 2);
    assert cs[..k][..k] == cs[..k];
  }

  lemma {:induction false} GreedyOfPrefix(cs: seq<JsString>, budget: int)
    requires forall i :: 0 <= i < |cs| ==> IsCharacter(cs[i])
    ensures Greedy(cs[..Greedy(cs, budget)], budget) == Greedy(cs, budget)
  {
    if cs != [] && Cost(cs[0]) <= budget {
      GreedyOfPrefix(cs[1..], budget - Cost(cs[0]));
      var k := Greedy(cs, budget);
      assert cs[..k][1..] == cs[1..][..k - 1];
    }
  }

  /** The binary search for the longest prefix. */
  method FitJsonString(value: JsString, maxBytes: int) returns (r: JsString)
    ensures r == Fit(value, maxBytes)
  {
    FitFits(value, maxBytes);
    if JsonBytes(value) <= maxBytes { return value; }
    var characters := Characters(value);
    CharactersAreWellCut(value);
    var low, high := 0, |characters|;
    while low < high
      invariant 0 <= low <= high <= |characters|
      invariant low > 0 ==> Fits(characters, low, maxBytes)
      invariant forall j :: high < j <= |characters| ==> !Fits(characters, j, maxBytes)
    {
      var middle := (low + high + 1) / 2;
      if JsonBytes(Join(characters[..middle])) <= maxBytes {
        low := middle;
      } else {
        forall j | middle <= j <= |characters| ensures !Fits(characters, j, maxBytes) {
          if middle < j {
            PrefixesGrow(characters, middle, j);
          }
        }
        high := middle - 1;
      }
    }
    GreedyIsLongest(characters, maxBytes);
    LongestIsUnique(characters, low, Greedy(characters, maxBytes - 2), maxBytes);
    return Join(characters[..low]);
  }

  // ---- The bounded semantic review ------------------------------------------------------------

  const MAX_TEXT_LINES := 2000
  const COVERED_LIMIT := 6
  const EXPLICIT_LIMIT := 8
  const TARGET_BYTES := 128
  const JOB_ID_BYTES := 64
  const TOTAL_BYTES := 4096
  const MAX_SAFE_INTEGER := 0x1F_FFFF_FFFF_FFFF

  type Tail = (JsString, nat) -> JsString

  const LINE_FEED: Unit := 0x0A

  function LineCount(s: JsString): nat {
    if s == [] then 1 else (if s[0] == LINE_FEED then 1 else 0) + LineCount(s[1..])
  }

  /** One line more than there are line feeds. */
  lemma {:induction false} LineCountIs(s: JsString)
    ensures LineCount(s) == 1 + multiset(s)[0x0A]
  {
    if s != [] {
      LineCountIs(s[1..]);
      assert s == [s[0]] + s[1..];
    }
  }

  /** What is taken for granted of the package's truncation, where it is. */
  ghost predicate LeavesBoundedAlone(tail: Tail) {
    forall s: JsString, limit: nat :: Utf8Length(s) <= limit && LineCount(s) <= MAX_TEXT_LINES ==> tail(s, limit) == s
  }

  function BoundedText(tail: Tail, value: JsString, limit: nat): JsString {
    Fit(tail(value, limit), if limit < 2 then 2 else limit)
  }

  lemma {:induction false} TextIsShorterThanItsJson(cs: seq<JsString>)
    requires WellCut(cs)
    ensures Utf8Length(Join(cs)) <= CostSum(cs) && LineCount(Join(cs)) <= CostSum(cs) + 1
  {
    if cs != [] {
      TextIsShorterThanItsJson(cs[1..]);
      var s := Join(cs);
      if |cs[0]| == 2 {
        assert s[1..][1..] == Join(cs[1..]);
      }
    }
  }

  /** Bounding a bounded text again changes nothing, and its JSON text is within the bound. */
  lemma BoundedTextIsBounded(tail: Tail, value: JsString, limit: nat)
    requires 2 <= limit <= MAX_TEXT_LINES
    ensures JsonBytes(BoundedText(tail, value, limit)) <= limit
    ensures LeavesBoundedAlone(tail) ==> BoundedText(tail, BoundedText(tail, value, limit), limit) == BoundedText(tail, value, limit)
  {
    var r := BoundedText(tail, value, limit);
    FitFits(tail(value, limit), limit);
    CharactersAreWellCut(r);
    JsonBytesOfCharacters(Characters(r));
    TextIsShorterThanItsJson(Characters(r));
  }

  /** A number of the source: a whole number or anything else. */
  datatype Number = Whole(n: int) | Other

  datatype Covered = Covered(target: JsString, targetId: JsString, supervisorJobId: JsString)

  datatype Source = Source(observedAtMs: Number, covered: seq<Covered>, explicitIds: seq<JsString>, omittedCovered: Number, omittedExplicit: Number)

  datatype Review = Review(observedAtMs: nat, covered: seq<Covered>, explicitIds: seq<JsString>, omittedCovered: nat, omittedExplicit: nat)

  datatype Result<T> = Ok(value: T) | Invalid

  predicate IsSafeCount(x: Number) {
    x.Whole? && 0 <= x.n <= MAX_SAFE_INTEGER
  }

  lemma SafeCountIff(x: Number)
    ensures IsSafeCount(x) <==> exists n :: 0 <= n <= 9_007_199_254_740_991 && x == Whole(n)
  {
  }

  function BoundedOmission(x: Number): (n: nat)
    ensures n <= MAX_SAFE_INTEGER
  {
    if IsSafeCount(x) then x.n else 0
  }

  function IncrementOmission(value: nat, amount: nat): nat {
    if value + amount < MAX_SAFE_INTEGER then value + amount else MAX_SAFE_INTEGER
  }

  function Take<T>(s: seq<T>, limit: nat): seq<T> {
    if |s| <= limit then s else s[..limit]
  }

  function Excess(size: nat, limit: nat): nat {
    if size <= limit then 0 else size - limit
  }

  function BoundCovered(tail: Tail, c: Covered): Covered {
    Covered(BoundedText(tail, c.target, TARGET_BYTES), BoundedText(tail, c.targetId, TARGET_BYTES), BoundedText(tail, c.supervisorJobId, JOB_ID_BYTES))
  }

  function BoundAllCovered(tail: Tail, cs: seq<Covered>): (r: seq<Covered>)
    ensures |r| == |cs| && forall i :: 0 <= i < |r| ==> r[i] == BoundCovered(tail, cs[i])
  {
    if cs == [] then [] else [BoundCovered(tail, cs[0])] + BoundAllCovered(tail, cs[1..])
  }

  function BoundAllIds(tail: Tail, ids: seq<JsString>): (r: seq<JsString>)
    ensures |r| == |ids| && forall i :: 0 <= i < |r| ==> r[i] == BoundedText(tail, ids[i], TARGET_BYTES)
  {
    if ids == [] then [] else [BoundedText(tail, ids[0], TARGET_BYTES)] + BoundAllIds(tail, ids[1..])
  }

  /** The field and list caps. */
  function Capped(tail: Tail, v: Source): Review
    requires IsSafeCount(v.observedAtMs)
  {
    Review(v.observedAtMs.n,
           BoundAllCovered(tail, Take(v.covered, COVERED_LIMIT)),
           BoundAllIds(tail, Take(v.explicitIds, EXPLICIT_LIMIT)),
           IncrementOmission(BoundedOmission(v.omittedCovered), Excess(|v.covered|, COVERED_LIMIT)),
           IncrementOmission(BoundedOmission(v.omittedExplicit), Excess(|v.explicitIds|, EXPLICIT_LIMIT)))
  }

  // ---- The JSON text of a review --------------------------------------------------------------------

  /** The units of a label; labels are ASCII, for which `% 0x80` changes nothing. */
  function Ascii(s: string): JsString {
    seq(|s|, i requires 0 <= i < |s| => s[i] as int % 0x80)
  }

  function Digits(n: nat): JsString {
    if n < 10 then [0x30 + n] else Digits(n / 10) + [0x30 + n % 10]
  }

  /** What decimal digits come to. */
  function DecimalValue(ds: JsString): int {
    if ds == [] then 0 else DecimalValue(ds[..|ds| - 1]) * 10 + (ds[|ds| - 1] as int - 0x30)
  }

  lemma {:induction false} DigitsRead(n: nat)
    ensures var ds := Digits(n);
            && DecimalValue(ds) == n && ds != [] && (ds[0] == 0x30 ==> n == 0)
            && (forall i :: 0 <= i < |ds| ==> 0x30 <= ds[i] <= 0x39)
  {
    if n < 10 {
      assert Digits(n)[..0] == [];
    } else {
      DigitsRead(n / 10);
      assert Digits(n)[..|Digits(n)| - 1] == Digits(n / 10);
    }
  }

  function CoveredText(c: Covered): JsString {
    Ascii("{\"target\":") + Quote(c.target) + (Ascii(",\"targetId\":") + Quote(c.targetId)) + (Ascii(",\"supervisorJobId\":") + Quote(c.supervisorJobId)) + Ascii("}")
  }

  function CoveredTexts(cs: seq<Covered>): (r: seq<JsString>)
    ensures |r| == |cs| && forall i :: 0 <= i < |r| ==> r[i] == CoveredText(cs[i])
  {
    if cs == [] then [] else [CoveredText(cs[0])] + CoveredTexts(cs[1..])
  }

  function IdTexts(ids: seq<JsString>): (r: seq<JsString>)
    ensures |r| == |ids| && forall i :: 0 <= i < |r| ==> r[i] == Quote(ids[i])
  {
    if ids == [] then [] else [Quote(ids[0])] + IdTexts(ids[1..])
  }

  /** Does not end inside a surrogate pair, and is of this length. */
  ghost predicate Measures(s: JsString, n: nat) {
    (s == [] || !IsHigh(s[|s| - 1])) && Utf8Length(s) <= n
  }

  lemma MeasuresSum(a: JsString, m: nat, b: JsString, n: nat)
    requires Measures(a, m) && Measures(b, n)
    ensures Measures(a + b, m + n)
  {
    Utf8Sum(a, b);
    if b != [] {
      assert (a + b)[|a + b| - 1] == b[|b| - 1];
    } else {
      assert a + b == a;
    }
  }

  lemma AsciiMeasures(s: string)
    ensures Measures(Ascii(s), |s|)
  {
    AsciiLength(Ascii(s));
  }

  lemma {:induction false} DigitsMeasure(n: nat, width: nat, limit: nat)
    requires n < limit && limit == Power(width) && width >= 1
    ensures Measures(Digits(n), width)
    decreases n
  {
    if n < 10 {
      AsciiLength(Digits(n));
    } else {
      assert width >= 2;
      DigitsMeasure(n / 10, width - 1, Power(width - 1));
      AsciiLength([0x30 + n % 10]);
      MeasuresSum(Digits(n / 10), width - 1, [0x30 + n % 10], 1);
    }
  }

  function Power(k: nat): nat {
    if k == 0 then 1 else 10 * Power(k - 1)
  }

  lemma SafeDigits(n: nat)
    requires n <= MAX_SAFE_INTEGER
    ensures Measures(Digits(n), 16)
  {
    assert Power(8) == 100_000_000;
    assert Power(16) == 10_000_000_000_000_000 by {
      assert Power(12) == 1_000_000_000_000;
    }
    DigitsMeasure(n, 16, Power(16));
  }

  ghost predicate SmallCovered(c: Covered) {
    JsonBytes(c.target) <= TARGET_BYTES && JsonBytes(c.targetId) <= TARGET_BYTES && JsonBytes(c.supervisorJobId) <= JOB_ID_BYTES
  }

  lemma CoveredMeasures(c: Covered)
    requires SmallCovered(c)
    ensures Measures(CoveredText(c), 362)
  {
    var a, b, d, e := Ascii("{\"target\":"), Ascii(",\"targetId\":"), Ascii(",\"supervisorJobId\":"), Ascii("}");
    AsciiMeasures("{\"target\":");
    AsciiMeasures(",\"targetId\":");
    AsciiMeasures(",\"supervisorJobId\":");
    AsciiMeasures("}");
    MeasuresSum(a, 10, Quote(c.target), 128);
    MeasuresSum(b, 12, Quote(c.targetId), 128);
    MeasuresSum(d, 19, Quote(c.supervisorJobId), 64);
    MeasuresSum(a + Quote(c.target), 138, b + Quote(c.targetId), 140);
    MeasuresSum(a + Quote(c.target) + (b + Quote(c.targetId)), 278, d + Quote(c.supervisorJobId), 83);
    MeasuresSum(a + Quote(c.target) + (b + Quote(c.targetId)) + (d + Quote(c.supervisorJobId)), 361, e, 1);
  }

  lemma {:induction false} JoinMeasures(texts: seq<JsString>, each: nat)
    requires forall i :: 0 <= i < |texts| ==> Measures(texts[i], each)
    ensures Measures(JoinTexts(texts), |texts| * (each + 1))
  {
    if |texts| == 1 {
    } else if texts != [] {
      JoinMeasures(texts[1..], each);
      AsciiLength([COMMA]);
      MeasuresSum(texts[0], each, [COMMA], 1);
      MeasuresSum(texts[0] + [COMMA], each + 1, JoinTexts(texts[1..]), |texts[1..]| * (each + 1));
      assert |texts| * (each + 1) == (each + 1) + |texts[1..]| * (each + 1);
    }
  }

  ghost predicate WithinCaps(r: Review) {
    && |r.covered| <= COVERED_LIMIT && |r.explicitIds| <= EXPLICIT_LIMIT
    && (forall i :: 0 <= i < |r.covered| ==> SmallCovered(r.covered[i]))
    && (forall i :: 0 <= i < |r.explicitIds| ==> JsonBytes(r.explicitIds[i]) <= TARGET_BYTES)
    && r.observedAtMs <= MAX_SAFE_INTEGER && r.omittedCovered <= MAX_SAFE_INTEGER && r.omittedExplicit <= MAX_SAFE_INTEGER
  }

  lemma CoveredListMeasures(cs: seq<Covered>)
    requires |cs| <= COVERED_LIMIT && forall i :: 0 <= i < |cs| ==> SmallCovered(cs[i])
    ensures Measures(JoinTexts(CoveredTexts(cs)), 2178)
  {
    forall i | 0 <= i < |cs| ensures Measures(CoveredTexts(cs)[i], 362) {
      CoveredMeasures(cs[i]);
    }
    JoinMeasures(CoveredTexts(cs), 362);
    assert |cs| * 363 <= 2178;
  }

  lemma IdListMeasures(ids: seq<JsString>)
    requires |ids| <= EXPLICIT_LIMIT && forall i :: 0 <= i < |ids| ==> JsonBytes(ids[i]) <= TARGET_BYTES
    ensures Measures(JoinTexts(IdTexts(ids)), 1032)
  {
    forall i | 0 <= i < |ids| ensures Measures(IdTexts(ids)[i], 128) {
    }
    JoinMeasures(IdTexts(ids), 128);
    assert |ids| * 129 <= 1032;
  }

  lemma Labelled(name: string, value: JsString, n: nat)
    requires Measures(value, n)
    ensures Measures(Ascii(name) + value, |name| + n)
  {
    AsciiMeasures(name);
    MeasuresSum(Ascii(name), |name|, value, n);
  }

  lemma FiveParts(a: JsString, k: nat, b: JsString, l: nat, c: JsString, m: nat, d: JsString, n: nat, e: JsString, o: nat)
    requires Measures(a, k) && Measures(b, l) && Measures(c, m) && Measures(d, n) && Measures(e, o)
    ensures Measures(a + b + c + d + e, k + l + m + n + o)
  {
    MeasuresSum(a, k, b, l);
    MeasuresSum(a + b, k + l, c, m);
    MeasuresSum(a + b + c, k + l + m, d, n);
    MeasuresSum(a + b + c + d, k + l + m + n, e, o);
  }

  function ObservedPart(r: Review): JsString {
    Ascii("{\"observedAtMs\":") + Digits(r.observedAtMs)
  }

  function CoveredPart(r: Review): JsString {
    Ascii(",\"supervisorCovered\":[") + JoinTexts(CoveredTexts(r.covered))
  }

  function ExplicitPart(r: Review): JsString {
    Ascii("],\"explicitReviewerTargetIds\":[") + JoinTexts(IdTexts(r.explicitIds))
  }

  function OmittedPart(r: Review): JsString {
    Ascii("],\"omittedSupervisorCovered\":") + Digits(r.omittedCovered)
  }

  function LastPart(r: Review): JsString {
    Ascii(",\"omittedExplicitReviewerTargetIds\":") + Digits(r.omittedExplicit) + Ascii("}")
  }

  function ReviewText(r: Review): JsString {
    ObservedPart(r) + CoveredPart(r) + ExplicitPart(r) + OmittedPart(r) + LastPart(r)
  }

  function ReviewBytes(r: Review): nat {
    Utf8Length(ReviewText(r))
  }

  lemma ListPartsMeasure(r: Review)
    requires WithinCaps(r)
    ensures Measures(CoveredPart(r), 2200) && Measures(ExplicitPart(r), 1063)
  {
    CoveredListMeasures(r.covered);
    IdListMeasures(r.explicitIds);
    Labelled(",\"supervisorCovered\":[", JoinTexts(CoveredTexts(r.covered)), 2178);
    Labelled("],\"explicitReviewerTargetIds\":[", JoinTexts(IdTexts(r.explicitIds)), 1032);
  }

  lemma CountPartsMeasure(r: Review)
    requires WithinCaps(r)
    ensures Measures(ObservedPart(r), 32) && Measures(OmittedPart(r), 45) && Measures(LastPart(r), 54)
  {
    SafeDigits(r.observedAtMs);
    SafeDigits(r.omittedCovered);
    SafeDigits(r.omittedExplicit);
    Labelled("{\"observedAtMs\":", Digits(r.observedAtMs), 16);
    Labelled("],\"omittedSupervisorCovered\":", Digits(r.omittedCovered), 16);
    Labelled(",\"omittedExplicitReviewerTargetIds\":", Digits(r.omittedExplicit), 16);
    AsciiMeasures("}");
    MeasuresSum(Ascii(",\"omittedExplicitReviewerTargetIds\":") + Digits(r.omittedExplicit), 53, Ascii("}"), 1);
  }

  /** The field and list caps alone keep the text within the total. */
  lemma CapsAreEnough(r: Review)
    requires WithinCaps(r)
    ensures ReviewBytes(r) <= 3394 < TOTAL_BYTES
  {
    ListPartsMeasure(r);
    CountPartsMeasure(r);
    FiveParts(ObservedPart(r), 32, CoveredPart(r), 2200, ExplicitPart(r), 1063, OmittedPart(r), 45, LastPart(r), 54);
  }

  lemma CappedIsWithinCaps(tail: Tail, v: Source)
    requires IsSafeCount(v.observedAtMs)
    ensures WithinCaps(Capped(tail, v))
  {
    var r := Capped(tail, v);
    forall i | 0 <= i < |r.covered| ensures SmallCovered(r.covered[i]) {
      var c := Take(v.covered, COVERED_LIMIT)[i];
      BoundedTextIsBounded(tail, c.target, TARGET_BYTES);
      BoundedTextIsBounded(tail, c.targetId, TARGET_BYTES);
      BoundedTextIsBounded(tail, c.supervisorJobId, JOB_ID_BYTES);
    }
    forall i | 0 <= i < |r.explicitIds| ensures JsonBytes(r.explicitIds[i]) <= TARGET_BYTES {
      BoundedTextIsBounded(tail, Take(v.explicitIds, EXPLICIT_LIMIT)[i], TARGET_BYTES);
    }
  }

  // ---- The eviction loop -----------------------------------------------------------------------------

  function TailBytes(texts: seq<JsString>): int {
    if texts == [] then -1 else Utf8Length(texts[|texts| - 1])
  }

  function DropCovered(r: Review): Review
    requires r.covered != []
  {
    r.(covered := r.covered[..|r.covered| - 1], omittedCovered := IncrementOmission(r.omittedCovered, 1))
  }

  function DropExplicit(r: Review): Review
    requires r.explicitIds != []
  {
    r.(explicitIds := r.explicitIds[..|r.explicitIds| - 1], omittedExplicit := IncrementOmission(r.omittedExplicit, 1))
  }

  predicate CoveredGoesFirst(r: Review) {
    r.explicitIds == [] || (r.covered != [] && TailBytes(CoveredTexts(r.covered)) >= TailBytes(IdTexts(r.explicitIds)))
  }

  function EvictOne(r: Review): Review
    requires r.covered != [] || r.explicitIds != []
  {
    if CoveredGoesFirst(r) then DropCovered(r) else DropExplicit(r)
  }

  function Evicted(r: Review): Review
    decreases |r.covered| + |r.explicitIds|
  {
    if ReviewBytes(r) > TOTAL_BYTES && (r.covered != [] || r.explicitIds != []) then Evicted(EvictOne(r)) else r
  }

  method BoundedSemanticReview(tail: Tail, v: Source) returns (r: Result<Review>)
    ensures r == if IsSafeCount(v.observedAtMs) then Ok(Capped(tail, v)) else Invalid
  {
    if !IsSafeCount(v.observedAtMs) { return Invalid; }
    var projection := Capped(tail, v);
    while ReviewBytes(projection) > TOTAL_BYTES && (|projection.covered| > 0 || |projection.explicitIds| > 0)
      invariant Evicted(projection) == Evicted(Capped(tail, v))
      decreases |projection.covered| + |projection.explicitIds|
    {
      var coveredTail, explicitTail := TailBytes(CoveredTexts(projection.covered)), TailBytes(IdTexts(projection.explicitIds));
      if coveredTail >= explicitTail {
        projection := DropCovered(projection);
      } else {
        projection := DropExplicit(projection);
      }
    }
    EvictionNeverStarts(tail, v);
    return Ok(projection);
  }

  /** The caps leave nothing for the eviction loop to do. */
  lemma EvictionNeverStarts(tail: Tail, v: Source)
    requires IsSafeCount(v.observedAtMs)
    ensures Evicted(Capped(tail, v)) == Capped(tail, v) && ReviewBytes(Capped(tail, v)) < TOTAL_BYTES
  {
    CappedIsWithinCaps(tail, v);
    CapsAreEnough(Capped(tail, v));
  }

  ghost predicate Accounts(r: Review, t: Review) {
    && t.covered <= r.covered && t.explicitIds <= r.explicitIds && t.observedAtMs == r.observedAtMs
    && t.omittedCovered == IncrementOmission(r.omittedCovered, |r.covered| - |t.covered|)
    && t.omittedExplicit == IncrementOmission(r.omittedExplicit, |r.explicitIds| - |t.explicitIds|)
  }

  lemma AccountsJoins(a: Review, b: Review, c: Review)
    requires Accounts(a, b) && Accounts(b, c)
    ensures Accounts(a, c)
  {
  }

  lemma EvictOneAccounts(r: Review)
    requires (r.covered != [] || r.explicitIds != []) && r.omittedCovered <= MAX_SAFE_INTEGER && r.omittedExplicit <= MAX_SAFE_INTEGER
    ensures Accounts(r, EvictOne(r))
  {
  }

  /** Were it ever needed, eviction would still account for what it drops, and end within the total or with nothing left. */
  lemma {:induction false} EvictionConserves(r: Review)
    requires r.omittedCovered <= MAX_SAFE_INTEGER && r.omittedExplicit <= MAX_SAFE_INTEGER
    ensures Accounts(r, Evicted(r))
    ensures ReviewBytes(Evicted(r)) <= TOTAL_BYTES || (Evicted(r).covered == [] && Evicted(r).explicitIds == [])
    decreases |r.covered| + |r.explicitIds|
  {
    if ReviewBytes(r) > TOTAL_BYTES && (r.covered != [] || r.explicitIds != []) {
      EvictOneAccounts(r);
      EvictionConserves(EvictOne(r));
      AccountsJoins(r, EvictOne(r), Evicted(r));
    }
  }

  /** The lists kept are prefixes, each entry bounded, and kept plus omitted is the source plus what was already omitted, up to saturation. */
  lemma ReviewConserves(tail: Tail, v: Source)
    requires IsSafeCount(v.observedAtMs)
    ensures var r := Capped(tail, v);
            && |r.covered| <= |v.covered| && (forall i :: 0 <= i < |r.covered| ==> r.covered[i] == BoundCovered(tail, v.covered[i]))
            && |r.explicitIds| <= |v.explicitIds| && (forall i :: 0 <= i < |r.explicitIds| ==> r.explicitIds[i] == BoundedText(tail, v.explicitIds[i], TARGET_BYTES))
            && r.omittedCovered == IncrementOmission(BoundedOmission(v.omittedCovered), |v.covered| - |r.covered|)
            && r.omittedExplicit == IncrementOmission(BoundedOmission(v.omittedExplicit), |v.explicitIds| - |r.explicitIds|)
            && (|r.covered| < |v.covered| ==> |r.covered| == COVERED_LIMIT) && (|r.explicitIds| < |v.explicitIds| ==> |r.explicitIds| == EXPLICIT_LIMIT)
  {
  }

  /** The review by its fields: the first 6 and 8 entries, each text the longest fitting prefix of its tail, and the counts of what is left out. */
  lemma ReviewByField(tail: Tail, v: Source)
    requires IsSafeCount(v.observedAtMs)
    ensures var r := Capped(tail, v);
            && r.observedAtMs == v.observedAtMs.n
            && |r.covered| == (if |v.covered| <= 6 then |v.covered| else 6)
            && |r.explicitIds| == (if |v.explicitIds| <= 8 then |v.explicitIds| else 8)
            && (forall i :: 0 <= i < |r.covered| ==>
                  && r.covered[i].target == Fit(tail(v.covered[i].target, 128), 128)
                  && r.covered[i].targetId == Fit(tail(v.covered[i].targetId, 128), 128)
                  && r.covered[i].supervisorJobId == Fit(tail(v.covered[i].supervisorJobId, 64), 64))
            && (forall i :: 0 <= i < |r.explicitIds| ==> r.explicitIds[i] == Fit(tail(v.explicitIds[i], 128), 128))
            && CountsUp(r.omittedCovered, v.omittedCovered, |v.covered| - |r.covered|)
            && CountsUp(r.omittedExplicit, v.omittedExplicit, |v.explicitIds| - |r.explicitIds|)
  {
  }

  /** What was omitted before, if that is a safe count, and this many more, up to the largest safe integer. */
  predicate CountsUp(now: nat, before: Number, more: nat) {
    var had := if before.Whole? && 0 <= before.n <= 9_007_199_254_740_991 then before.n else 0;
    if had + more <= 9_007_199_254_740_991 then now == had + more else now == 9_007_199_254_740_991
  }

  lemma LastTextBytes(r: Review)
    ensures TailBytes(CoveredTexts(r.covered)) == if r.covered == [] then -1 else Utf8Length(CoveredText(r.covered[|r.covered| - 1]))
    ensures TailBytes(IdTexts(r.explicitIds)) == if r.explicitIds == [] then -1 else Utf8Length(Quote(r.explicitIds[|r.explicitIds| - 1]))
  {
  }

  lemma CoveredGoesFirstIff(r: Review)
    requires r.covered != [] || r.explicitIds != []
    ensures CoveredGoesFirst(r) <==> TailBytes(CoveredTexts(r.covered)) >= TailBytes(IdTexts(r.explicitIds))
    ensures if CoveredGoesFirst(r) then r.covered != [] else r.explicitIds != []
  {
    LastTextBytes(r);
  }

  /** One eviction drops the last entry of the list whose last entry has the longer JSON text, a covered one when they are as long. */
  lemma EvictOneDrops(r: Review)
    requires r.covered != [] || r.explicitIds != []
    ensures var t := EvictOne(r);
            var c := if r.covered == [] then -1 else Utf8Length(CoveredText(r.covered[|r.covered| - 1]));
            var e := if r.explicitIds == [] then -1 else Utf8Length(Quote(r.explicitIds[|r.explicitIds| - 1]));
            if c >= e then t == r.(covered := r.covered[..|r.covered| - 1], omittedCovered := IncrementOmission(r.omittedCovered, 1))
            else t == r.(explicitIds := r.explicitIds[..|r.explicitIds| - 1], omittedExplicit := IncrementOmission(r.omittedExplicit, 1))
  {
    LastTextBytes(r);
    CoveredGoesFirstIff(r);
  }

  function AsSource(r: Review): Source {
    Source(Whole(r.observedAtMs), r.covered, r.explicitIds, Whole(r.omittedCovered), Whole(r.omittedExplicit))
  }

  /** Bounding a bounded review again changes nothing. */
  lemma ReviewIsIdempotent(tail: Tail, v: Source)
    requires IsSafeCount(v.observedAtMs) && LeavesBoundedAlone(tail)
    ensures var r := Capped(tail, v); IsSafeCount(AsSource(r).observedAtMs) && Capped(tail, AsSource(r)) == r
  {
    var r := Capped(tail, v);
    CappedIsWithinCaps(tail, v);
    forall i | 0 <= i < |r.covered| ensures BoundCovered(tail, r.covered[i]) == r.covered[i] {
      var c := Take(v.covered, COVERED_LIMIT)[i];
      BoundedTextIsBounded(tail, c.target, TARGET_BYTES);
      BoundedTextIsBounded(tail, c.targetId, TARGET_BYTES);
      BoundedTextIsBounded(tail, c.supervisorJobId, JOB_ID_BYTES);
    }
    forall i | 0 <= i < |r.explicitIds| ensures BoundedText(tail, r.explicitIds[i], TARGET_BYTES) == r.explicitIds[i] {
      BoundedTextIsBounded(tail, Take(v.explicitIds, EXPLICIT_LIMIT)[i], TARGET_BYTES);
    }
    assert BoundAllCovered(tail, r.covered) == r.covered;
    assert BoundAllIds(tail, r.explicitIds) == r.explicitIds;
  }
}
