/**
 The canonical JSON text of a launch Task: the text that `taskDigest` hashes.

 Strings are UTF-16 code units, objects are entry lists in insertion order (what
 `Object.keys` yields), and the text is built exactly as `canonicalJson` builds it:
 arrays in order, object entries by ascending key, no insignificant whitespace.
 */
module Canonical {
  import opened JsText
  import opened Options

  datatype Json =
    | Null
    | Bool(b: bool)
    | Str(s: JsString)
    | Arr(items: seq<Json>)
    | Obj(entries: seq<Entry>)

  datatype Entry = Entry(key: JsString, value: Json)

  const QUOTE: Unit := 0x22
  const BACKSLASH: Unit := 0x5C
  const COMMA: Unit := 0x2C
  const COLON: Unit := 0x3A
  const OPEN_ARRAY: Unit := 0x5B
  const CLOSE_ARRAY: Unit := 0x5D
  const OPEN_OBJECT: Unit := 0x7B
  const CLOSE_OBJECT: Unit := 0x7D
  const NULL_TEXT: JsString := [0x6E, 0x75, 0x6C, 0x6C]
  const TRUE_TEXT: JsString := [0x74, 0x72, 0x75, 0x65]
  const FALSE_TEXT: JsString := [0x66, 0x61, 0x6C, 0x73, 0x65]

  // ---- Strings: RFC 8259 section 7 --------------------------------------------------

  predicate IsHigh(u: Unit) { 0xD800 <= u < 0xDC00 }

  predicate IsLow(u: Unit) { 0xDC00 <= u < 0xE000 }

  function HexDigit(n: int): (u: Unit)
    requires 0 <= n < 16
  {
    if n < 10 then 0x30 + n else 0x61 + n - 10
  }

  function HexEscape(u: Unit): JsString {
    [BACKSLASH, 0x75, HexDigit(u / 0x1000), HexDigit(u / 0x100 % 16), HexDigit(u / 0x10 % 16), HexDigit(u % 16)]
  }

  /** One code unit that is not part of a surrogate pair. */
  function QuoteUnit(u: Unit): JsString {
    if u == QUOTE then [BACKSLASH, QUOTE]
    else if u == BACKSLASH then [BACKSLASH, BACKSLASH]
    else if u == 0x08 then [BACKSLASH, 0x62]
    else if u == 0x0C then [BACKSLASH, 0x66]
    else if u == 0x0A then [BACKSLASH, 0x6E]
    else if u == 0x0D then [BACKSLASH, 0x72]
    else if u == 0x09 then [BACKSLASH, 0x74]
    else if u < 0x20 || IsHigh(u) || IsLow(u) then HexEscape(u)
    else [u]
  }

  /** A surrogate pair is kept, a lone surrogate is escaped (well-formed `JSON.stringify`). */
  function QuoteBody(s: JsString): JsString {
    if s == [] then []
    else if |s| >= 2 && IsHigh(s[0]) && IsLow(s[1]) then s[..2] + QuoteBody(s[2..])
    else QuoteUnit(s[0]) + QuoteBody(s[1..])
  }

  /** `JSON.stringify` of a string. */
  function Quote(s: JsString): JsString {
    [QUOTE] + QuoteBody(s) + [QUOTE]
  }

  // ---- Values: RFC 8259 sections 4 and 5 --------------------------------------------

  function JoinTexts(texts: seq<JsString>): JsString {
    if texts == [] then []
    else if |texts| == 1 then texts[0]
    else texts[0] + [COMMA] + JoinTexts(texts[1..])
  }

  /** Stable insertion by key, as `Object.keys(value).sort()` orders the keys of one object. */
  function InsertEntry(e: Entry, es: seq<Entry>): (r: seq<Entry>)
    ensures forall x :: x in r <==> x == e || x in es
    ensures |r| == |es| + 1
  {
    if es == [] || Below(e.key, es[0].key) then [e] + es
    else [es[0]] + InsertEntry(e, es[1..])
  }

  function SortEntries(es: seq<Entry>): (r: seq<Entry>)
    ensures forall x :: x in r <==> x in es
    ensures |r| == |es|
  {
    if es == [] then [] else InsertEntry(es[0], SortEntries(es[1..]))
  }

  function CanonicalJson(v: Json): JsString
    decreases v, 1
  {
    match v
    case Null => NULL_TEXT
    case Bool(b) => if b then TRUE_TEXT else FALSE_TEXT
    case Str(s) => Quote(s)
    case Arr(items) =>
      [OPEN_ARRAY] + JoinTexts(seq(|items|, i requires 0 <= i < |items| => CanonicalJson(items[i]))) + [CLOSE_ARRAY]
    case Obj(entries) =>
      var sorted := SortEntries(entries);
      assert forall i :: 0 <= i < |sorted| ==> sorted[i] in entries;
      [OPEN_OBJECT] + JoinTexts(seq(|sorted|, i requires 0 <= i < |sorted| => Quote(sorted[i].key) + [COLON] + CanonicalJson(sorted[i].value))) + [CLOSE_OBJECT]
  }

  // ---- An independent reader: RFC 8259 without its numbers ---------------------------

  datatype Read<T> = Refused | Parsed(value: T, rest: JsString)

  predicate IsSpace(u: Unit) { u == 0x20 || u == 0x09 || u == 0x0A || u == 0x0D }

  function SkipSpace(text: JsString): (r: JsString)
    ensures |r| <= |text|
  {
    if text != [] && IsSpace(text[0]) then SkipSpace(text[1..]) else text
  }

  function HexValue(u: Unit): int {
    if 0x30 <= u <= 0x39 then u - 0x30
    else if 0x61 <= u <= 0x66 then u - 0x61 + 10
    else if 0x41 <= u <= 0x46 then u - 0x41 + 10
    else -1
  }

  /** Section 7, after the opening quotation mark: up to and over the closing one. */
  function ReadBody(text: JsString): (r: Read<JsString>)
    ensures r.Parsed? ==> |r.rest| < |text|
  {
    if text == [] || text[0] < 0x20 then Refused
    else if text[0] == QUOTE then Parsed([], text[1..])
    else if text[0] != BACKSLASH then
      match ReadBody(text[1..])
      case Refused => Refused
      case Parsed(s, rest) => Parsed([text[0]] + s, rest)
    else if |text| < 2 then Refused
    else if text[1] == 0x75 then
      if |text| < 6 then Refused
      else
        var a, b, c, d := HexValue(text[2]), HexValue(text[3]), HexValue(text[4]), HexValue(text[5]);
        if a < 0 || b < 0 || c < 0 || d < 0 then Refused
        else
          match ReadBody(text[6..])
          case Refused => Refused
          case Parsed(s, rest) => Parsed([a * 0x1000 + b * 0x100 + c * 0x10 + d] + s, rest)
    else
      var u := Unescaped(text[1]);
      if u < 0 then Refused
      else
        match ReadBody(text[2..])
        case Refused => Refused
        case Parsed(s, rest) => Parsed([u] + s, rest)
  }

  function Unescaped(u: Unit): (r: int)
    ensures r < 0x1_0000
  {
    if u == QUOTE || u == BACKSLASH || u == 0x2F then u
    else if u == 0x62 then 0x08
    else if u == 0x66 then 0x0C
    else if u == 0x6E then 0x0A
    else if u == 0x72 then 0x0D
    else if u == 0x74 then 0x09
    else -1
  }

  /** Sections 3 to 5: literals, objects, arrays, strings. */
  function ReadValue(text: JsString): (r: Read<Json>)
    ensures r.Parsed? ==> |r.rest| < |text|
    decreases |text|, 0
  {
    var t := SkipSpace(text);
    if t == [] then Refused
    else if NULL_TEXT <= t then Parsed(Null, t[4..])
    else if TRUE_TEXT <= t then Parsed(Bool(true), t[4..])
    else if FALSE_TEXT <= t then Parsed(Bool(false), t[5..])
    else if t[0] == QUOTE then
      match ReadBody(t[1..])
      case Refused => Refused
      case Parsed(s, rest) => Parsed(Str(s), rest)
    else if t[0] == OPEN_ARRAY then
      var u := SkipSpace(t[1..]);
      if u != [] && u[0] == CLOSE_ARRAY then Parsed(Arr([]), u[1..])
      else
        match ReadItems(u)
        case Refused => Refused
        case Parsed(items, rest) => Parsed(Arr(items), rest)
    else if t[0] == OPEN_OBJECT then
      var u := SkipSpace(t[1..]);
      if u != [] && u[0] == CLOSE_OBJECT then Parsed(Obj([]), u[1..])
      else
        match ReadMembers(u)
        case Refused => Refused
        case Parsed(entries, rest) => Parsed(Obj(entries), rest)
    else Refused
  }

  /** One or more values separated by commas, up to and over the closing bracket. */
  function ReadItems(text: JsString): (r: Read<seq<Json>>)
    ensures r.Parsed? ==> |r.rest| < |text|
    decreases |text|, 1
  {
    match ReadValue(text)
    case Refused => Refused
    case Parsed(v, rest) =>
      var t := SkipSpace(rest);
      if t == [] then Refused
      else if t[0] == CLOSE_ARRAY then Parsed([v], t[1..])
      else if t[0] != COMMA then Refused
      else
        match ReadItems(t[1..])
        case Refused => Refused
        case Parsed(vs, last) => Parsed([v] + vs, last)
  }

  function ReadMembers(text: JsString): (r: Read<seq<Entry>>)
    ensures r.Parsed? ==> |r.rest| < |text|
    decreases |text|, 1
  {
    var t := SkipSpace(text);
    if t == [] || t[0] != QUOTE then Refused
    else
      match ReadBody(t[1..])
      case Refused => Refused
      case Parsed(key, afterKey) =>
        var c := SkipSpace(afterKey);
        if c == [] || c[0] != COLON then Refused
        else
          match ReadValue(c[1..])
          case Refused => Refused
          case Parsed(v, rest) =>
            var d := SkipSpace(rest);
            if d == [] then Refused
            else if d[0] == CLOSE_OBJECT then Parsed([Entry(key, v)], d[1..])
            else if d[0] != COMMA then Refused
            else
              match ReadMembers(d[1..])
              case Refused => Refused
              case Parsed(es, last) => Parsed([Entry(key, v)] + es, last)
  }

  lemma HexDigitReads(n: int)
    requires 0 <= n < 16
    ensures HexValue(HexDigit(n)) == n
  {
  }

  lemma HexSum(u: Unit)
    ensures u / 0x1000 * 0x1000 + u / 0x100 % 16 * 0x100 + u / 0x10 % 16 * 0x10 + u % 16 == u
    ensures 0 <= u / 0x1000 < 16
  {
    var q := u / 0x10;
    var p := u / 0x100;
    assert u == q * 0x10 + u % 16;
    assert q == p * 16 + q % 16;
    assert p == u / 0x1000 * 16 + p % 16;
  }

  lemma HexEscapeReads(u: Unit, tail: JsString)
    ensures ReadBody(HexEscape(u) + tail) ==
            match ReadBody(tail) case Refused => Refused case Parsed(s, rest) => Parsed([u] + s, rest)
  {
    var text := HexEscape(u) + tail;
    HexSum(u);
    HexDigitReads(u / 0x1000);
    HexDigitReads(u / 0x100 % 16);
    HexDigitReads(u / 0x10 % 16);
    HexDigitReads(u % 16);
    assert text[2] == HexDigit(u / 0x1000) && text[3] == HexDigit(u / 0x100 % 16);
    assert text[4] == HexDigit(u / 0x10 % 16) && text[5] == HexDigit(u % 16);
    assert text[6..] == tail;
  }

  lemma QuotedUnitReads(u: Unit, tail: JsString)
    ensures ReadBody(QuoteUnit(u) + tail) ==
            match ReadBody(tail) case Refused => Refused case Parsed(s, rest) => Parsed([u] + s, rest)
  {
    var q := QuoteUnit(u);
    var text := q + tail;
    assert text[|q|..] == tail;
    if q == HexEscape(u) {
      HexEscapeReads(u, tail);
    }
  }

  /** Only the empty text between quotes reads as nothing. */
  lemma NothingReadsAsEmpty(t: JsString)
    requires ReadBody(t + [QUOTE]) == Parsed([], [])
    ensures t == []
  {
  }

  lemma PlainReads(u: Unit, t: JsString)
    requires t != [] && t[0] != BACKSLASH && ReadBody(t + [QUOTE]) == Parsed([u], [])
    ensures t == [u] && u >= 0x20 && u != QUOTE && u != BACKSLASH
  {
    var text := t + [QUOTE];
    assert text[1..] == t[1..] + [QUOTE];
    NothingReadsAsEmpty(t[1..]);
  }

  lemma EscapeReads(u: Unit, t: JsString)
    requires t != [] && t[0] == BACKSLASH && ReadBody(t + [QUOTE]) == Parsed([u], [])
    ensures |t| >= 6 || (|t| >= 2 && Unescaped(t[1]) == u)
  {
    var text := t + [QUOTE];
    if text[1] == 0x75 {
      assert ReadBody(text[6..]).Parsed?;
    } else {
      assert ReadBody(text[2..]).Parsed?;
    }
  }

  /** The texts that may read as this unit. */
  predicate MayReadAs(t: JsString, u: Unit) {
    || (t == [u] && u >= 0x20 && u != QUOTE && u != BACKSLASH)
    || |t| >= 6
    || (|t| >= 2 && Unescaped(t[1]) == u)
  }

  lemma OnlyTheseRead(u: Unit, t: JsString)
    requires ReadBody(t + [QUOTE]) == Parsed([u], [])
    ensures MayReadAs(t, u)
  {
    assert t != [];
    if t[0] == BACKSLASH {
      EscapeReads(u, t);
    } else {
      PlainReads(u, t);
    }
  }

  lemma ShortestOfThese(u: Unit, t: JsString)
    requires MayReadAs(t, u)
    ensures |QuoteUnit(u)| <= |t| || (t == [u] && (IsHigh(u) || IsLow(u)))
  {
  }

  /** A unit is written in the shortest way that reads as it, but that a surrogate standing alone is escaped. */
  lemma UnitIsWrittenShortest(u: Unit)
    ensures forall t: JsString :: ReadBody(t + [QUOTE]) == Parsed([u], []) ==> |QuoteUnit(u)| <= |t| || (t == [u] && (IsHigh(u) || IsLow(u)))
  {
    forall t: JsString | ReadBody(t + [QUOTE]) == Parsed([u], []) ensures |QuoteUnit(u)| <= |t| || (t == [u] && (IsHigh(u) || IsLow(u))) {
      OnlyTheseRead(u, t);
      ShortestOfThese(u, t);
    }
  }

  /** Escapes are written with small digits, and a surrogate standing alone is escaped. */
  lemma EscapesAreSmall(u: Unit)
    ensures forall i :: 2 <= i < |QuoteUnit(u)| ==> '0' as int <= QuoteUnit(u)[i] <= '9' as int || 'a' as int <= QuoteUnit(u)[i] <= 'f' as int
    ensures IsHigh(u) || IsLow(u) ==> |QuoteUnit(u)| == 6
  {
    HexSum(u);
  }

  /** The string form is section 7's: the reader gives back the string and stops right after it. */
  lemma {:induction false} QuotedTextReads(s: JsString, rest: JsString)
    ensures ReadBody(QuoteBody(s) + [QUOTE] + rest) == Parsed(s, rest)
  {
    if s == [] {
      assert QuoteBody(s) + [QUOTE] + rest == [QUOTE] + rest;
    } else if |s| >= 2 && IsHigh(s[0]) && IsLow(s[1]) {
      var tail := QuoteBody(s[2..]) + [QUOTE] + rest;
      BodyOfPair(s, rest);
      QuotedTextReads(s[2..], rest);
      PairReads(s, tail, rest);
    } else {
      var tail := QuoteBody(s[1..]) + [QUOTE] + rest;
      BodyOfUnit(s, rest);
      QuotedTextReads(s[1..], rest);
      UnitReads(s, tail, rest);
    }
  }

  lemma BodyOfPair(s: JsString, rest: JsString)
    requires |s| >= 2 && IsHigh(s[0]) && IsLow(s[1])
    ensures QuoteBody(s) + [QUOTE] + rest == [s[0]] + ([s[1]] + (QuoteBody(s[2..]) + [QUOTE] + rest))
  {
    Regroup(s[..2], QuoteBody(s[2..]), rest);
    SplitPair(s, QuoteBody(s[2..]) + [QUOTE] + rest);
  }

  lemma SplitPair(s: JsString, tail: JsString)
    requires |s| >= 2
    ensures s[..2] + tail == [s[0]] + ([s[1]] + tail)
  {
  }

  lemma Regroup(a: JsString, b: JsString, rest: JsString)
    ensures (a + b) + [QUOTE] + rest == a + (b + [QUOTE] + rest)
  {
  }

  lemma BodyOfUnit(s: JsString, rest: JsString)
    requires s != [] && !(|s| >= 2 && IsHigh(s[0]) && IsLow(s[1]))
    ensures QuoteBody(s) + [QUOTE] + rest == QuoteUnit(s[0]) + (QuoteBody(s[1..]) + [QUOTE] + rest)
  {
    Regroup(QuoteUnit(s[0]), QuoteBody(s[1..]), rest);
  }

  lemma PairReads(s: JsString, tail: JsString, rest: JsString)
    requires |s| >= 2 && IsHigh(s[0]) && IsLow(s[1]) && ReadBody(tail) == Parsed(s[2..], rest)
    ensures ReadBody([s[0]] + ([s[1]] + tail)) == Parsed(s, rest)
  {
    assert s == [s[0]] + ([s[1]] + s[2..]);
  }

  lemma UnitReads(s: JsString, tail: JsString, rest: JsString)
    requires s != [] && ReadBody(tail) == Parsed(s[1..], rest)
    ensures ReadBody(QuoteUnit(s[0]) + tail) == Parsed(s, rest)
  {
    QuotedUnitReads(s[0], tail);
    assert s == [s[0]] + s[1..];
  }

  // ---- What the text determines ------------------------------------------------------

  /** Key order forgotten: every object's entries in ascending key order. */
  function NormalForm(v: Json): Json
  {
    match v
    case Null => v
    case Bool(_) => v
    case Str(_) => v
    case Arr(items) => Arr(seq(|items|, i requires 0 <= i < |items| => NormalForm(items[i])))
    case Obj(entries) =>
      var sorted := SortEntries(entries);
      assert forall i :: 0 <= i < |sorted| ==> sorted[i] in entries;
      Obj(seq(|sorted|, i requires 0 <= i < |sorted| => Entry(sorted[i].key, NormalForm(sorted[i].value))))
  }

  ghost function ItemTexts(items: seq<Json>): seq<JsString> {
    seq(|items|, i requires 0 <= i < |items| => CanonicalJson(items[i]))
  }

  ghost function EntryTexts(es: seq<Entry>): seq<JsString> {
    seq(|es|, i requires 0 <= i < |es| => Quote(es[i].key) + [COLON] + CanonicalJson(es[i].value))
  }

  ghost function NormalItems(items: seq<Json>): seq<Json> {
    seq(|items|, i requires 0 <= i < |items| => NormalForm(items[i]))
  }

  ghost function NormalEntries(es: seq<Entry>): seq<Entry> {
    seq(|es|, i requires 0 <= i < |es| => Entry(es[i].key, NormalForm(es[i].value)))
  }

  predicate StartsValue(u: Unit) {
    u == NULL_TEXT[0] || u == TRUE_TEXT[0] || u == FALSE_TEXT[0] || u == QUOTE || u == OPEN_ARRAY || u == OPEN_OBJECT
  }

  // One grammar step each, over an abstract remainder.

  lemma ArrayStep(u: JsString, items: seq<Json>, rest: JsString)
    requires ReadsAsItems(u, items, rest)
    ensures ReadValue([OPEN_ARRAY] + u) == Parsed(Arr(items), rest)
  {
    var t := [OPEN_ARRAY] + u;
    assert SkipSpace(t) == t && t[1..] == u;
    assert SkipSpace(u) == u;
  }

  ghost predicate ReadsAsMembers(u: JsString, es: seq<Entry>, rest: JsString) {
    && u != [] && !IsSpace(u[0])
    && if es == [] then u == [CLOSE_OBJECT] + rest else u[0] != CLOSE_OBJECT && ReadMembers(u) == Parsed(es, rest)
  }

  lemma ObjectStep(u: JsString, es: seq<Entry>, rest: JsString)
    requires ReadsAsMembers(u, es, rest)
    ensures ReadValue([OPEN_OBJECT] + u) == Parsed(Obj(es), rest)
  {
    var t := [OPEN_OBJECT] + u;
    assert SkipSpace(t) == t && t[1..] == u;
    assert SkipSpace(u) == u;
  }

  lemma ItemStep(text: JsString, v: Json, tail: JsString, vs: seq<Json>, rest: JsString)
    requires if vs == [] then ReadValue(text) == Parsed(v, [CLOSE_ARRAY] + rest)
             else ReadValue(text) == Parsed(v, [COMMA] + tail) && ReadItems(tail) == Parsed(vs, rest)
    ensures ReadItems(text) == Parsed([v] + vs, rest)
  {
    var after := if vs == [] then [CLOSE_ARRAY] + rest else [COMMA] + tail;
    assert SkipSpace(after) == after;
    assert after[1..] == if vs == [] then rest else tail;
    assert vs == [] ==> [v] + vs == [v];
  }

  lemma MemberStep(body: JsString, key: JsString, c: JsString, v: Json, tail: JsString, es: seq<Entry>, rest: JsString)
    requires ReadBody(body) == Parsed(key, [COLON] + c)
    requires if es == [] then ReadValue(c) == Parsed(v, [CLOSE_OBJECT] + rest)
             else ReadValue(c) == Parsed(v, [COMMA] + tail) && ReadMembers(tail) == Parsed(es, rest)
    ensures ReadMembers([QUOTE] + body) == Parsed([Entry(key, v)] + es, rest)
  {
    var t := [QUOTE] + body;
    assert SkipSpace(t) == t && t[1..] == body;
    assert SkipSpace([COLON] + c) == [COLON] + c && ([COLON] + c)[1..] == c;
    var after := if es == [] then [CLOSE_OBJECT] + rest else [COMMA] + tail;
    assert SkipSpace(after) == after;
    assert after[1..] == if es == [] then rest else tail;
    assert es == [] ==> [Entry(key, v)] + es == [Entry(key, v)];
  }

  lemma LiteralStep(v: Json, rest: JsString)
    requires v.Null? || v.Bool?
    ensures ReadValue(CanonicalJson(v) + rest) == Parsed(v, rest)
  {
    var w := CanonicalJson(v);
    var text := w + rest;
    assert SkipSpace(text) == text;
    assert text[|w|..] == rest && text[..|w|] == w;
  }

  lemma ArrayText(items: seq<Json>, rest: JsString)
    ensures CanonicalJson(Arr(items)) + rest == [OPEN_ARRAY] + (JoinTexts(ItemTexts(items)) + [CLOSE_ARRAY] + rest)
    ensures NormalForm(Arr(items)) == Arr(NormalItems(items))
  {
    assert CanonicalJson(Arr(items)) == [OPEN_ARRAY] + JoinTexts(ItemTexts(items)) + [CLOSE_ARRAY];
  }

  lemma ObjectText(entries: seq<Entry>, rest: JsString)
    ensures var sorted := SortEntries(entries);
            CanonicalJson(Obj(entries)) + rest == [OPEN_OBJECT] + (JoinTexts(EntryTexts(sorted)) + [CLOSE_OBJECT] + rest)
    ensures NormalForm(Obj(entries)) == Obj(NormalEntries(SortEntries(entries)))
  {
    assert CanonicalJson(Obj(entries)) == [OPEN_OBJECT] + JoinTexts(EntryTexts(SortEntries(entries))) + [CLOSE_OBJECT];
  }

  /** The whole text is RFC 8259 JSON, and it denotes the value up to key order. */
  lemma {:induction false} CanonicalTextReads(v: Json, rest: JsString)
    ensures ReadValue(CanonicalJson(v) + rest) == Parsed(NormalForm(v), rest)
    decreases v, 1, 0
  {
    match v
    case Null => LiteralStep(v, rest);
    case Bool(_) => LiteralStep(v, rest);
    case Str(s) =>
      var body := QuoteBody(s) + [QUOTE] + rest;
      assert CanonicalJson(v) + rest == [QUOTE] + body;
      QuotedTextReads(s, rest);
    case Arr(items) =>
      assert forall i :: 0 <= i < |items| ==> items[i] < v;
      ArrayReads(items, rest, v);
      ArrayText(items, rest);
      ArrayStep(JoinTexts(ItemTexts(items)) + [CLOSE_ARRAY] + rest, NormalItems(items), rest);
    case Obj(entries) =>
      var sorted := SortEntries(entries);
      assert forall i :: 0 <= i < |sorted| ==> sorted[i] in entries;
      ObjectReads(sorted, rest, v);
      ObjectText(entries, rest);
      ObjectStep(JoinTexts(EntryTexts(sorted)) + [CLOSE_OBJECT] + rest, NormalEntries(sorted), rest);
  }

  ghost predicate ReadsAsItems(u: JsString, vs: seq<Json>, rest: JsString) {
    && u != [] && !IsSpace(u[0])
    && if vs == [] then u == [CLOSE_ARRAY] + rest else u[0] != CLOSE_ARRAY && ReadItems(u) == Parsed(vs, rest)
  }

  lemma {:induction false} ArrayReads(items: seq<Json>, rest: JsString, parent: Json)
    requires forall i :: 0 <= i < |items| ==> items[i] < parent
    ensures ReadsAsItems(JoinTexts(ItemTexts(items)) + [CLOSE_ARRAY] + rest, NormalItems(items), rest)
    decreases parent, 0, |items|
  {
    if items == [] {
      assert JoinTexts(ItemTexts(items)) + [CLOSE_ARRAY] + rest == [CLOSE_ARRAY] + rest;
    } else {
      var tail := JoinTexts(ItemTexts(items[1..])) + [CLOSE_ARRAY] + rest;
      var after := if |items| == 1 then [CLOSE_ARRAY] + rest else [COMMA] + tail;
      ArrayReads(items[1..], rest, parent);
      CanonicalTextReads(items[0], after);
      ItemsUnfold(items, rest);
      ItemsFold(items, after, tail, rest);
    }
  }

  lemma ItemsUnfold(items: seq<Json>, rest: JsString)
    requires items != []
    ensures JoinTexts(ItemTexts(items)) + [CLOSE_ARRAY] + rest ==
            CanonicalJson(items[0]) + if |items| == 1 then [CLOSE_ARRAY] + rest else [COMMA] + (JoinTexts(ItemTexts(items[1..])) + [CLOSE_ARRAY] + rest)
  {
    var texts := ItemTexts(items);
    assert texts[1..] == ItemTexts(items[1..]);
    JoinSplits(texts, CLOSE_ARRAY, rest);
  }

  lemma ItemsFold(items: seq<Json>, after: JsString, tail: JsString, rest: JsString)
    requires items != []
    requires ReadValue(CanonicalJson(items[0]) + after) == Parsed(NormalForm(items[0]), after)
    requires if |items| == 1 then after == [CLOSE_ARRAY] + rest else after == [COMMA] + tail
    requires ReadsAsItems(tail, NormalItems(items[1..]), rest)
    ensures ReadsAsItems(CanonicalJson(items[0]) + after, NormalItems(items), rest)
  {
    ItemStep(CanonicalJson(items[0]) + after, NormalForm(items[0]), tail, NormalItems(items[1..]), rest);
    NormalItemsSplit(items);
    ItemsClose(CanonicalJson(items[0]) + after, NormalForm(items[0]), NormalItems(items[1..]), rest);
  }

  lemma NormalItemsSplit(items: seq<Json>)
    requires items != []
    ensures NormalItems(items) == [NormalForm(items[0])] + NormalItems(items[1..])
  {
  }

  lemma ItemsClose(u: JsString, v: Json, vs: seq<Json>, rest: JsString)
    requires u != [] && StartsValue(u[0]) && ReadItems(u) == Parsed([v] + vs, rest)
    ensures ReadsAsItems(u, [v] + vs, rest)
  {
  }

  lemma JoinSplits(texts: seq<JsString>, close: Unit, rest: JsString)
    requires texts != []
    ensures JoinTexts(texts) + [close] + rest ==
            texts[0] + if |texts| == 1 then [close] + rest else [COMMA] + (JoinTexts(texts[1..]) + [close] + rest)
  {
  }

  lemma {:induction false} ObjectReads(es: seq<Entry>, rest: JsString, parent: Json)
    requires forall i :: 0 <= i < |es| ==> es[i].value < parent
    ensures ReadsAsMembers(JoinTexts(EntryTexts(es)) + [CLOSE_OBJECT] + rest, NormalEntries(es), rest)
    decreases parent, 0, |es|
  {
    if es == [] {
      NoMembers(rest);
    } else {
      var tail := JoinTexts(EntryTexts(es[1..])) + [CLOSE_OBJECT] + rest;
      var after := if |es| == 1 then [CLOSE_OBJECT] + rest else [COMMA] + tail;
      ObjectReads(es[1..], rest, parent);
      CanonicalTextReads(es[0].value, after);
      MembersUnfold(es, rest);
      MembersFold(es, after, tail, rest);
    }
  }

  lemma NoMembers(rest: JsString)
    ensures ReadsAsMembers(JoinTexts(EntryTexts([])) + [CLOSE_OBJECT] + rest, NormalEntries([]), rest)
  {
    assert JoinTexts(EntryTexts([])) + [CLOSE_OBJECT] + rest == [CLOSE_OBJECT] + rest;
  }

  lemma MembersFold(es: seq<Entry>, after: JsString, tail: JsString, rest: JsString)
    requires es != []
    requires ReadValue(CanonicalJson(es[0].value) + after) == Parsed(NormalForm(es[0].value), after)
    requires if |es| == 1 then after == [CLOSE_OBJECT] + rest else after == [COMMA] + tail
    requires ReadsAsMembers(tail, NormalEntries(es[1..]), rest)
    ensures ReadsAsMembers([QUOTE] + (QuoteBody(es[0].key) + [QUOTE] + ([COLON] + (CanonicalJson(es[0].value) + after))), NormalEntries(es), rest)
  {
    MemberReads(es[0], after, tail, NormalEntries(es[1..]), rest);
    NormalEntriesSplit(es);
    MembersClose([QUOTE] + (QuoteBody(es[0].key) + [QUOTE] + ([COLON] + (CanonicalJson(es[0].value) + after))),
                 Entry(es[0].key, NormalForm(es[0].value)), NormalEntries(es[1..]), rest);
  }

  lemma NormalEntriesSplit(es: seq<Entry>)
    requires es != []
    ensures NormalEntries(es) == [Entry(es[0].key, NormalForm(es[0].value))] + NormalEntries(es[1..])
  {
  }

  lemma MembersClose(u: JsString, e: Entry, es: seq<Entry>, rest: JsString)
    requires u != [] && u[0] == QUOTE && ReadMembers(u) == Parsed([e] + es, rest)
    ensures ReadsAsMembers(u, [e] + es, rest)
  {
  }

  lemma MembersUnfold(es: seq<Entry>, rest: JsString)
    requires es != []
    ensures var after := if |es| == 1 then [CLOSE_OBJECT] + rest else [COMMA] + (JoinTexts(EntryTexts(es[1..])) + [CLOSE_OBJECT] + rest);
            JoinTexts(EntryTexts(es)) + [CLOSE_OBJECT] + rest ==
            [QUOTE] + (QuoteBody(es[0].key) + [QUOTE] + ([COLON] + (CanonicalJson(es[0].value) + after)))
  {
    var texts := EntryTexts(es);
    var after := if |es| == 1 then [CLOSE_OBJECT] + rest else [COMMA] + (JoinTexts(EntryTexts(es[1..])) + [CLOSE_OBJECT] + rest);
    assert texts[1..] == EntryTexts(es[1..]);
    JoinSplits(texts, CLOSE_OBJECT, rest);
    MemberText(es[0], after);
  }

  lemma MemberReads(e: Entry, after: JsString, tail: JsString, es: seq<Entry>, rest: JsString)
    requires ReadValue(CanonicalJson(e.value) + after) == Parsed(NormalForm(e.value), after)
    requires if es == [] then after == [CLOSE_OBJECT] + rest else after == [COMMA] + tail && ReadMembers(tail) == Parsed(es, rest)
    ensures ReadMembers([QUOTE] + (QuoteBody(e.key) + [QUOTE] + ([COLON] + (CanonicalJson(e.value) + after)))) ==
            Parsed([Entry(e.key, NormalForm(e.value))] + es, rest)
  {
    var c := CanonicalJson(e.value) + after;
    QuotedTextReads(e.key, [COLON] + c);
    MemberStep(QuoteBody(e.key) + [QUOTE] + ([COLON] + c), e.key, c, NormalForm(e.value), tail, es, rest);
  }

  lemma MemberText(e: Entry, after: JsString)
    ensures Quote(e.key) + [COLON] + CanonicalJson(e.value) + after ==
            [QUOTE] + (QuoteBody(e.key) + [QUOTE] + ([COLON] + (CanonicalJson(e.value) + after)))
  {
    var k := QuoteBody(e.key);
    var v := CanonicalJson(e.value);
    assert Quote(e.key) == [QUOTE] + k + [QUOTE];
    assert [QUOTE] + k + [QUOTE] + [COLON] + v + after == [QUOTE] + (k + [QUOTE] + ([COLON] + (v + after)));
  }

  // ---- Equality of values, with no mention of order or text -------------------------

  ghost predicate DistinctKeys(es: seq<Entry>) {
    forall i, j :: 0 <= i < j < |es| ==> es[i].key != es[j].key
  }

  /** No object repeats a key, at any depth: what `JSON.parse` and object literals produce. */
  ghost predicate WellFormed(v: Json) {
    match v
    case Arr(items) => forall i :: 0 <= i < |items| ==> WellFormed(items[i])
    case Obj(es) => DistinctKeys(es) && forall i :: 0 <= i < |es| ==> WellFormed(es[i].value)
    case _ => true
  }

  /** Equal as JSON values: arrays in order, objects as finite maps. */
  ghost predicate Same(v: Json, w: Json)
    decreases v, 1
  {
    match (v, w)
    case (Arr(a), Arr(b)) => |a| == |b| && forall i :: 0 <= i < |a| ==> Same(a[i], b[i])
    case (Obj(a), Obj(b)) => (forall e | e in a :: IsMatched(e, b)) && (forall f | f in b :: Matches(a, f))
    case (_, _) => v == w
  }

  ghost predicate IsMatched(e: Entry, b: seq<Entry>)
    decreases e, 0
  {
    exists f :: f in b && f.key == e.key && Same(e.value, f.value)
  }

  ghost predicate Matches(a: seq<Entry>, f: Entry)
    decreases a, 0
  {
    exists e :: e in a && e.key == f.key && Same(e.value, f.value)
  }

  ghost function KeysOf(es: seq<Entry>): seq<JsString> {
    seq(|es|, i requires 0 <= i < |es| => es[i].key)
  }

  lemma {:induction false} InsertedKeysAscend(e: Entry, es: seq<Entry>)
    requires Ascending(KeysOf(es)) && forall i :: 0 <= i < |es| ==> es[i].key != e.key
    ensures Ascending(KeysOf(InsertEntry(e, es)))
  {
    if es != [] {
      BelowIsTotal(e.key, es[0].key);
      var ks := KeysOf(es);
      if Below(e.key, es[0].key) {
        assert InsertEntry(e, es) == [e] + es;
        forall j | 0 <= j < |es| ensures Below(e.key, es[j].key) {
          assert ks[0] == es[0].key && ks[j] == es[j].key;
          if j > 0 { BelowIsTransitive(e.key, es[0].key, es[j].key); }
        }
        assert KeysOf([e] + es) == [e.key] + ks;
      } else {
        assert KeysOf(es[1..]) == ks[1..];
        InsertedKeysAscend(e, es[1..]);
        var r := InsertEntry(e, es[1..]);
        forall j | 0 <= j < |r| ensures Below(es[0].key, r[j].key) {
          assert r[j] in r;
          if r[j] != e {
            var k :| 0 <= k < |es[1..]| && es[1..][k] == r[j];
            assert Below(ks[0], ks[k + 1]);
          }
        }
        assert KeysOf([es[0]] + r) == [es[0].key] + KeysOf(r);
      }
    }
  }

  lemma {:induction false} SortedKeysAscend(es: seq<Entry>)
    requires DistinctKeys(es)
    ensures Ascending(KeysOf(SortEntries(es)))
  {
    if es != [] {
      SortedKeysAscend(es[1..]);
      var r := SortEntries(es[1..]);
      forall i | 0 <= i < |r| ensures r[i].key != es[0].key {
        assert r[i] in es[1..];
      }
      InsertedKeysAscend(es[0], r);
    }
  }

  lemma EntryOfKey(es: seq<Entry>, e: Entry, f: Entry)
    requires DistinctKeys(es) && e in es && f in es && e.key == f.key
    ensures e == f
  {
    var i :| 0 <= i < |es| && es[i] == e;
    var j :| 0 <= j < |es| && es[j] == f;
  }

  lemma KeysOfMember(es: seq<Entry>, k: JsString)
    ensures k in KeysOf(es) <==> exists e :: e in es && e.key == k
  {
    if k in KeysOf(es) {
      var i :| 0 <= i < |KeysOf(es)| && KeysOf(es)[i] == k;
      assert es[i] in es && es[i].key == k;
    }
    if e :| e in es && e.key == k {
      var i :| 0 <= i < |es| && es[i] == e;
      assert KeysOf(es)[i] == k;
    }
  }

  /** Objects with the same keys sort to lists whose keys agree position by position. */
  lemma SameKeysSortAlike(a: seq<Entry>, b: seq<Entry>)
    requires DistinctKeys(a) && DistinctKeys(b)
    requires Same(Obj(a), Obj(b))
    ensures KeysOf(SortEntries(a)) == KeysOf(SortEntries(b))
  {
    var sa, sb := SortEntries(a), SortEntries(b);
    SortedKeysAscend(a);
    SortedKeysAscend(b);
    forall k ensures k in KeysOf(sa) <==> k in KeysOf(sb) {
      KeysOfMember(sa, k);
      KeysOfMember(sb, k);
      if e :| e in sa && e.key == k {
        assert IsMatched(e, b);
      }
      if f :| f in sb && f.key == k {
        assert Matches(a, f);
      }
    }
    AscendingIsUnique(KeysOf(sa), KeysOf(sb));
  }

  lemma {:induction false} SameHasSameText(v: Json, w: Json)
    requires WellFormed(v) && WellFormed(w) && Same(v, w)
    ensures CanonicalJson(v) == CanonicalJson(w)
    decreases v, 1
  {
    match (v, w)
    case (Arr(a), Arr(b)) =>
      forall i | 0 <= i < |a| ensures CanonicalJson(a[i]) == CanonicalJson(b[i]) {
        SameHasSameText(a[i], b[i]);
      }
      ArrayText(a, []);
      ArrayText(b, []);
      assert ItemTexts(a) == ItemTexts(b);
      AppendNothing(v);
      AppendNothing(w);
    case (Obj(a), Obj(b)) =>
      SameObjectsSameTexts(a, b, v);
      ObjectText(a, []);
      ObjectText(b, []);
      AppendNothing(v);
      AppendNothing(w);
    case (_, _) =>
  }

  lemma {:induction false} SameObjectsSameTexts(a: seq<Entry>, b: seq<Entry>, parent: Json)
    requires parent == Obj(a) && WellFormed(parent) && WellFormed(Obj(b)) && Same(parent, Obj(b))
    ensures EntryTexts(SortEntries(a)) == EntryTexts(SortEntries(b))
    decreases parent, 0
  {
    SameKeysSortAlike(a, b);
    var sa, sb := SortEntries(a), SortEntries(b);
    assert |sa| == |KeysOf(sa)| && |sb| == |KeysOf(sb)|;
    forall i | 0 <= i < |sa| ensures sa[i].key == sb[i].key && CanonicalJson(sa[i].value) == CanonicalJson(sb[i].value) {
      assert KeysOf(sa)[i] == sa[i].key && KeysOf(sb)[i] == sb[i].key;
      assert sa[i] in a && sb[i] in b;
      assert IsMatched(sa[i], b);
      var f :| f in b && f.key == sa[i].key && Same(sa[i].value, f.value);
      EntryOfKey(b, f, sb[i]);
      EntryIsWellFormed(a, sa[i]);
      EntryIsWellFormed(b, sb[i]);
      SameHasSameText(sa[i].value, sb[i].value);
    }
  }

  lemma EntryIsWellFormed(es: seq<Entry>, e: Entry)
    requires WellFormed(Obj(es)) && e in es
    ensures WellFormed(e.value)
  {
  }

  lemma AppendNothing(v: Json)
    ensures CanonicalJson(v) + [] == CanonicalJson(v)
  {
  }

  lemma {:induction false} SameNormalFormIsSame(v: Json, w: Json)
    requires NormalForm(v) == NormalForm(w)
    ensures Same(v, w)
    decreases v, 1
  {
    match v
    case Arr(a) =>
      var b := w.items;
      assert |NormalForm(v).items| == |a| && |NormalForm(w).items| == |b|;
      forall i | 0 <= i < |a| ensures Same(a[i], b[i]) {
        assert NormalForm(v).items[i] == NormalForm(a[i]) && NormalForm(w).items[i] == NormalForm(b[i]);
        SameNormalFormIsSame(a[i], b[i]);
      }
    case Obj(a) =>
      SameNormalObjects(a, w.entries, v);
    case _ =>
  }

  lemma {:induction false} SameNormalObjects(a: seq<Entry>, b: seq<Entry>, parent: Json)
    requires parent == Obj(a) && NormalForm(parent) == NormalForm(Obj(b))
    ensures Same(parent, Obj(b))
    decreases parent, 0
  {
    var sa, sb := SortEntries(a), SortEntries(b);
    NormalObjects(a);
    NormalObjects(b);
    assert |NormalEntries(sa)| == |sa| && |NormalEntries(sb)| == |sb|;
    forall i | 0 <= i < |sa| ensures sa[i].key == sb[i].key && Same(sa[i].value, sb[i].value) {
      assert NormalEntries(sa)[i] == NormalEntries(sb)[i];
      assert sa[i] in a;
      SameNormalFormIsSame(sa[i].value, sb[i].value);
    }
    forall e | e in a ensures IsMatched(e, b) {
      var k :| 0 <= k < |sa| && sa[k] == e;
      assert sb[k] in b;
    }
    forall f | f in b ensures Matches(a, f) {
      var k :| 0 <= k < |sb| && sb[k] == f;
      assert sa[k] in a;
    }
  }

  lemma NormalObjects(es: seq<Entry>)
    ensures NormalForm(Obj(es)) == Obj(NormalEntries(SortEntries(es)))
  {
  }

  /** The canonical text forgets key order and nothing else. */
  lemma CanonicalTextDecidesEquality(v: Json, w: Json)
    requires WellFormed(v) && WellFormed(w)
    ensures CanonicalJson(v) == CanonicalJson(w) <==> Same(v, w)
  {
    if CanonicalJson(v) == CanonicalJson(w) {
      CanonicalTextReads(v, []);
      CanonicalTextReads(w, []);
      SameNormalFormIsSame(v, w);
    }
    if Same(v, w) {
      SameHasSameText(v, w);
    }
  }

  // ---- Launch Tasks ------------------------------------------------------------------

  datatype Task = Task(
    objective: JsString,
    scope: JsString,
    doneWhen: seq<JsString>,
    constraints: Option<seq<JsString>>,
    tier: Option<JsString>,
    recoveryOf: Option<JsString>,
    displayLabel: Option<JsString>,
    cwd: Option<JsString>,
    operatingPoint: Option<JsString>,
    retention: Option<JsString>)

  function Ascii(text: string): JsString
    requires forall i :: 0 <= i < |text| ==> text[i] < '\U{0080}'
  {
    seq(|text|, i requires 0 <= i < |text| => text[i] as int)
  }

  function TextList(items: seq<JsString>): Json {
    Arr(seq(|items|, i requires 0 <= i < |items| => Str(items[i])))
  }

  /** `{ ...task, constraints: task.constraints ?? [] }`: an omitted list is the empty list. */
  function Normalized(t: Task): Task {
    t.(constraints := Some(if t.constraints.None? then [] else t.constraints.value))
  }

  datatype Field = Objective | Scope | DoneWhen | Constraints | Tier | RecoveryOf | Label | Cwd | OperatingPoint | Retention

  const FIELDS: seq<Field> :=
    [Objective, Scope, DoneWhen, Constraints, Tier, RecoveryOf, Label, Cwd, OperatingPoint, Retention]

  function Name(f: Field): JsString {
    match f
    case Objective => Ascii("objective")
    case Scope => Ascii("scope")
    case DoneWhen => Ascii("doneWhen")
    case Constraints => Ascii("constraints")
    case Tier => Ascii("tier")
    case RecoveryOf => Ascii("recoveryOf")
    case Label => Ascii("label")
    case Cwd => Ascii("cwd")
    case OperatingPoint => Ascii("operatingPoint")
    case Retention => Ascii("retention")
  }

  function OptionalText(o: Option<JsString>): Option<Json> {
    if o.None? then None else Some(Str(o.value))
  }

  /** What a normalized task holds under a field; an omitted optional field is not in the object. */
  function FieldOf(t: Task, f: Field): Option<Json> {
    match f
    case Objective => Some(Str(t.objective))
    case Scope => Some(Str(t.scope))
    case DoneWhen => Some(TextList(t.doneWhen))
    case Constraints => Some(TextList(if t.constraints.None? then [] else t.constraints.value))
    case Tier => OptionalText(t.tier)
    case RecoveryOf => OptionalText(t.recoveryOf)
    case Label => OptionalText(t.displayLabel)
    case Cwd => OptionalText(t.cwd)
    case OperatingPoint => OptionalText(t.operatingPoint)
    case Retention => OptionalText(t.retention)
  }

  function EntriesFor(t: Task, fields: seq<Field>): seq<Entry> {
    if fields == [] then []
    else
      var rest := EntriesFor(t, fields[1..]);
      match FieldOf(t, fields[0])
      case None => rest
      case Some(v) => [Entry(Name(fields[0]), v)] + rest
  }

  function TaskEntries(t: Task): seq<Entry> {
    EntriesFor(t, FIELDS)
  }

  /** `v` is the digested object of task `t`, its entries in any order. */
  ghost predicate Presents(v: Json, t: Task) {
    v.Obj? && DistinctKeys(v.entries) && forall e :: e in v.entries <==> e in TaskEntries(t)
  }

  lemma NamesDiffer(f: Field, g: Field)
    ensures Name(f) == Name(g) ==> f == g
  {
    NameShape(f);
    NameShape(g);
  }

  lemma NameShape(f: Field)
    ensures Name(f) != []
    ensures |Name(f)| == match f
      case Objective => 9 case Scope => 5 case DoneWhen => 8 case Constraints => 11 case Tier => 4
      case RecoveryOf => 10 case Label => 5 case Cwd => 3 case OperatingPoint => 14 case Retention => 9
    ensures f.Objective? ==> Name(f)[0] == 'o' as int
    ensures f.Retention? ==> Name(f)[0] == 'r' as int
    ensures f.Scope? ==> Name(f)[0] == 's' as int
    ensures f.Label? ==> Name(f)[0] == 'l' as int
  {
  }

  ghost predicate IsEntryOf(t: Task, f: Field, e: Entry) {
    e.key == Name(f) && FieldOf(t, f) == Some(e.value)
  }

  lemma {:induction false} EntriesForAre(t: Task, fields: seq<Field>, e: Entry)
    ensures e in EntriesFor(t, fields) <==> exists f :: f in fields && IsEntryOf(t, f, e)
  {
    if fields != [] {
      EntriesForAre(t, fields[1..], e);
      assert fields == [fields[0]] + fields[1..];
      if IsEntryOf(t, fields[0], e) { assert fields[0] in fields; }
    }
  }

  lemma TaskEntriesAre(t: Task, e: Entry)
    ensures e in TaskEntries(t) <==> exists f :: IsEntryOf(t, f, e)
  {
    EntriesForAre(t, FIELDS, e);
    forall f: Field ensures f in FIELDS {
      FieldIsListed(f);
    }
  }

  /** An entry of the digested object: four of the fields are always there and six may be. */
  predicate Stands(t: Task, f: Field, e: Entry) {
    match f
    case Objective => e == Entry(Ascii("objective"), Str(t.objective))
    case Scope => e == Entry(Ascii("scope"), Str(t.scope))
    case DoneWhen => e == Entry(Ascii("doneWhen"), TextList(t.doneWhen))
    case Constraints => e == Entry(Ascii("constraints"), TextList(if t.constraints.Some? then t.constraints.value else []))
    case Tier => t.tier.Some? && e == Entry(Ascii("tier"), Str(t.tier.value))
    case RecoveryOf => t.recoveryOf.Some? && e == Entry(Ascii("recoveryOf"), Str(t.recoveryOf.value))
    case Label => t.displayLabel.Some? && e == Entry(Ascii("label"), Str(t.displayLabel.value))
    case Cwd => t.cwd.Some? && e == Entry(Ascii("cwd"), Str(t.cwd.value))
    case OperatingPoint => t.operatingPoint.Some? && e == Entry(Ascii("operatingPoint"), Str(t.operatingPoint.value))
    case Retention => t.retention.Some? && e == Entry(Ascii("retention"), Str(t.retention.value))
  }

  lemma TaskObjectIs(t: Task, e: Entry)
    ensures e in TaskEntries(t) <==> exists f :: Stands(t, f, e)
  {
    TaskEntriesAre(t, e);
    forall f ensures IsEntryOf(t, f, e) <==> Stands(t, f, e) {
      FieldStands(t, f, e);
    }
  }

  lemma FieldStands(t: Task, f: Field, e: Entry)
    ensures IsEntryOf(t, f, e) <==> Stands(t, f, e)
  {
  }

  lemma FieldIsListed(f: Field)
    ensures f in FIELDS
  {
    assert FIELDS[0] == Objective && FIELDS[1] == Scope && FIELDS[2] == DoneWhen && FIELDS[3] == Constraints;
    assert FIELDS[4] == Tier && FIELDS[5] == RecoveryOf && FIELDS[6] == Label && FIELDS[7] == Cwd;
    assert FIELDS[8] == OperatingPoint && FIELDS[9] == Retention;
  }

  lemma {:induction false} EntriesForAreDistinct(t: Task, fields: seq<Field>)
    requires forall i, j :: 0 <= i < j < |fields| ==> fields[i] != fields[j]
    ensures DistinctKeys(EntriesFor(t, fields))
  {
    if fields != [] {
      EntriesForAreDistinct(t, fields[1..]);
      forall e | e in EntriesFor(t, fields[1..]) ensures e.key != Name(fields[0]) {
        EntriesForAre(t, fields[1..], e);
        var f :| f in fields[1..] && IsEntryOf(t, f, e);
        NamesDiffer(f, fields[0]);
      }
    }
  }

  ghost predicate IsText(v: Json) {
    v.Str? || (v.Arr? && forall i :: 0 <= i < |v.items| ==> v.items[i].Str?)
  }

  lemma TaskValuesAreTexts(t: Task, e: Entry)
    requires e in TaskEntries(t)
    ensures IsText(e.value) && WellFormed(e.value)
  {
    TaskEntriesAre(t, e);
  }

  lemma SameTexts(v: Json, w: Json)
    requires IsText(v) && IsText(w)
    ensures Same(v, w) <==> v == w
  {
    if Same(v, w) && v.Arr? {
      forall i | 0 <= i < |v.items| ensures v.items[i] == w.items[i] {
        assert Same(v.items[i], w.items[i]);
      }
    }
  }

  lemma SameMeansSameEntries(v: Json, w: Json, t: Task, u: Task)
    requires Presents(v, t) && Presents(w, u)
    ensures Same(v, w) <==> forall e :: e in TaskEntries(t) <==> e in TaskEntries(u)
  {
    var a, b := v.entries, w.entries;
    forall e | e in a ensures IsMatched(e, b) <==> e in b {
      TaskValuesAreTexts(t, e);
      if f :| f in b && f.key == e.key && Same(e.value, f.value) {
        TaskValuesAreTexts(u, f);
        SameTexts(e.value, f.value);
      }
      SameTexts(e.value, e.value);
    }
    forall f | f in b ensures Matches(a, f) <==> f in a {
      TaskValuesAreTexts(u, f);
      if e :| e in a && e.key == f.key && Same(e.value, f.value) {
        TaskValuesAreTexts(t, e);
        SameTexts(e.value, f.value);
      }
      SameTexts(f.value, f.value);
    }
  }

  lemma SameTextLists(a: seq<JsString>, b: seq<JsString>)
    requires TextList(a) == TextList(b)
    ensures a == b
  {
    assert |TextList(a).items| == |a| && |TextList(b).items| == |b|;
    forall i | 0 <= i < |a| ensures a[i] == b[i] {
      assert TextList(a).items[i] == Str(a[i]) && TextList(b).items[i] == Str(b[i]);
    }
  }

  lemma SameEntriesMeansSameField(t: Task, u: Task, f: Field)
    requires forall e :: e in TaskEntries(t) <==> e in TaskEntries(u)
    ensures FieldOf(t, f) == FieldOf(u, f)
  {
    if FieldOf(t, f).Some? {
      FieldCarriesOver(t, u, f);
    } else if FieldOf(u, f).Some? {
      FieldCarriesOver(u, t, f);
    }
  }

  lemma FieldCarriesOver(t: Task, u: Task, f: Field)
    requires forall e :: e in TaskEntries(t) ==> e in TaskEntries(u)
    requires FieldOf(t, f).Some?
    ensures FieldOf(t, f) == FieldOf(u, f)
  {
    var e := Entry(Name(f), FieldOf(t, f).value);
    assert IsEntryOf(t, f, e);
    TaskEntriesAre(t, e);
    TaskEntriesAre(u, e);
    var g :| IsEntryOf(u, g, e);
    NamesDiffer(f, g);
  }

  lemma SameEntriesMeansSameTask(t: Task, u: Task)
    requires forall e :: e in TaskEntries(t) <==> e in TaskEntries(u)
    ensures Normalized(t) == Normalized(u)
  {
    forall f ensures FieldOf(t, f) == FieldOf(u, f) {
      SameEntriesMeansSameField(t, u, f);
    }
    SameTextLists(t.doneWhen, u.doneWhen) by { assert FieldOf(t, DoneWhen) == FieldOf(u, DoneWhen); }
    SameTextLists(Normalized(t).constraints.value, Normalized(u).constraints.value) by { assert FieldOf(t, Constraints) == FieldOf(u, Constraints); }
    assert FieldOf(t, Objective) == FieldOf(u, Objective) && FieldOf(t, Scope) == FieldOf(u, Scope);
    assert FieldOf(t, Tier) == FieldOf(u, Tier) && FieldOf(t, RecoveryOf) == FieldOf(u, RecoveryOf);
    assert FieldOf(t, Label) == FieldOf(u, Label) && FieldOf(t, Cwd) == FieldOf(u, Cwd);
    assert FieldOf(t, OperatingPoint) == FieldOf(u, OperatingPoint) && FieldOf(t, Retention) == FieldOf(u, Retention);
  }

  lemma SameTaskHasSameEntry(t: Task, u: Task, e: Entry)
    requires Normalized(t) == Normalized(u)
    ensures e in TaskEntries(t) <==> e in TaskEntries(u)
  {
    TaskEntriesAre(t, e);
    TaskEntriesAre(u, e);
    forall f ensures FieldOf(t, f) == FieldOf(u, f) {
      NormalizedHasSameFields(t, f);
      NormalizedHasSameFields(u, f);
    }
    assert forall f :: IsEntryOf(t, f, e) <==> IsEntryOf(u, f, e);
  }

  lemma NormalizedHasSameFields(t: Task, f: Field)
    ensures FieldOf(t, f) == FieldOf(Normalized(t), f)
  {
  }

  lemma PresentationIsWellFormed(v: Json, t: Task)
    requires Presents(v, t)
    ensures WellFormed(v)
  {
    forall i | 0 <= i < |v.entries| ensures WellFormed(v.entries[i].value) {
      assert v.entries[i] in v.entries;
      TaskValuesAreTexts(t, v.entries[i]);
    }
  }

  /**
   The digest's pre-image: whatever order their fields arrive in, two Tasks get the same text
   exactly when they are the same Task, an omitted `constraints` read as the empty list.
   */
  lemma TaskTextDecidesTask(v: Json, w: Json, t: Task, u: Task)
    requires Presents(v, t) && Presents(w, u)
    ensures CanonicalJson(v) == CanonicalJson(w) <==> Normalized(t) == Normalized(u)
  {
    PresentationIsWellFormed(v, t);
    PresentationIsWellFormed(w, u);
    CanonicalTextDecidesEquality(v, w);
    SameMeansSameEntries(v, w, t, u);
    if Same(v, w) {
      SameEntriesMeansSameTask(t, u);
    }
    if Normalized(t) == Normalized(u) {
      forall e ensures e in TaskEntries(t) <==> e in TaskEntries(u) {
        SameTaskHasSameEntry(t, u, e);
      }
    }
  }

  /** The fields in declaration order are one such presentation. */
  lemma DeclaredOrderPresents(t: Task)
    ensures Presents(Obj(TaskEntries(t)), t)
  {
    EntriesForAreDistinct(t, FIELDS);
  }

  function TaskText(t: Task): JsString {
    CanonicalJson(Obj(TaskEntries(t)))
  }
}
