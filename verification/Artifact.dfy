/**
 The handoff artifact: a strict document of one marker line and six headed sections.

 The patterns of the source are written out as predicates on lines. A line holds no newline, but it
 may hold the other line terminators, which `.` does not match and `\s` does.
 */
module Artifact {
  import opened Cutting
  import opened Options
  import opened Text

  const HEADINGS: seq<string> := ["Status", "Summary", "Changes", "Verification", "Blockers", "Continuation"]

  const STATUSES: set<string> := {"done", "blocked", "cancelled", "failed"}

  const MARKER_PREFIX := "herdr-run:"

  // ---- Patterns ----------------------------------------------------------------------------

  predicate IsTerminator(c: char) {
    c == '\n' || c == '\r' || c as int == 0x2028 || c as int == 0x2029
  }

  function Hashes(s: string): (k: nat)
    ensures k <= |s| && (forall i :: 0 <= i < k ==> s[i] == '#') && (k < |s| ==> s[k] != '#')
  {
    if s == [] || s[0] != '#' then 0 else 1 + Hashes(s[1..])
  }

  predicate NoTerminator(s: string) {
    forall i :: 0 <= i < |s| ==> !IsTerminator(s[i])
  }

  /** The last character, past the first, that `.` can match. */
  function LastDot(blanks: string): Option<char> {
    if |blanks| <= 1 then None
    else if !IsTerminator(blanks[|blanks| - 1]) then Some(blanks[|blanks| - 1])
    else LastDot(blanks[..|blanks| - 1])
  }

  /**
   The name that the heading pattern captures: one to six hashes, blanks, then the shortest text with
   only blanks behind it. When only blanks follow the hashes, backtracking gives up one of them.
   */
  function HeadingName(line: string): Option<string> {
    var k := Hashes(line);
    var after := line[k..];
    if !(1 <= k <= 6) || after == [] || !IsBlank(after[0]) then None
    else if AllBlank(after) then
      match LastDot(after) {
        case None => None
        case Some(c) => Some([c])
      }
    else
      var name := Trim(after);
      if NoTerminator(name) then Some(name) else None
  }

  predicate IsHeading(line: string) {
    HeadingName(line).Some?
  }

  /** `line.indexOf(" ")`, or the length where there is none. */
  function FirstSpace(line: string): (i: nat)
    ensures i <= |line| && ' ' !in line[..i] && (i < |line| ==> line[i] == ' ')
  {
    if line == [] || line[0] == ' ' then 0
    else
      var j := FirstSpace(line[1..]);
      assert line[..j + 1] == [line[0]] + line[1..][..j];
      j + 1
  }

  /** What the source takes for level two. */
  predicate IsLevelTwo(line: string) {
    FirstSpace(line) == 2 && |line| > 2
  }

  /** A marker line, once trimmed. */
  predicate IsMarker(line: string) {
    var t := Trim(line);
    |MARKER_PREFIX| < |t| && MARKER_PREFIX <= t && forall i :: |MARKER_PREFIX| <= i < |t| ==> !IsBlank(t[i])
  }

  predicate IsNone(s: string) {
    SameLetters(s, "none")
  }

  predicate IsPlaceholder(s: string) {
    || (|s| >= 2 && s[0] == '<' && s[|s| - 1] == '>' && '>' !in s[..|s| - 1])
    || (|s| >= 2 && forall i :: 0 <= i < |s| ==> s[i] == '.')
    || SameLetters(s, "todo") || SameLetters(s, "tbd") || SameLetters(s, "fixme") || SameLetters(s, "placeholder") || SameLetters(s, "n/a")
  }

  /** A trimmed line of the changes list: a dash, blanks, and something. */
  predicate IsEntry(t: string) {
    |t| >= 2 && t[0] == '-' && IsBlank(t[1]) && !AllBlank(t[1..])
  }

  predicate IsChanges(body: string) {
    IsNone(body) || (
      && (exists i :: 0 <= i < |Split(body)| && Trim(Split(body)[i]) != [])
      && (forall i :: 0 <= i < |Split(body)| && Trim(Split(body)[i]) != [] ==> IsEntry(Trim(Split(body)[i]))))
  }

  // ---- What is accepted ---------------------------------------------------------------------------

  datatype Reason = NulByte | MarkerMissing | MarkerDuplicate | ForeignRun | MarkerAfterHeading | HeadingsMismatch
                  | Empty(heading: string) | Placeholder(heading: string) | StatusReason | PlaceholderReason | ChangesReason

  datatype Parsed = Ok(runId: string, bodies: seq<string>) | Invalid(reason: Reason)

  function Body(s: Section<string>): string {
    Trim(JoinLines(s.body))
  }

  function Bodies(sections: seq<Section<string>>): (r: seq<string>)
    ensures |r| == |sections| && forall i :: 0 <= i < |r| ==> r[i] == Body(sections[i])
  {
    if sections == [] then [] else [Body(sections[0])] + Bodies(sections[1..])
  }

  predicate HeadingMatches(s: Section<string>, i: nat)
    requires i < 6
  {
    IsLevelTwo(s.heading) && HeadingName(s.heading) == Some(HEADINGS[i])
  }

  predicate HeadingsMatch(sections: seq<Section<string>>) {
    |sections| == 6 && forall i :: 0 <= i < 6 ==> HeadingMatches(sections[i], i)
  }

  /** The first section that is empty or a placeholder, from `i` on. */
  function BodyFault(bodies: seq<string>, i: nat): Option<Reason>
    requires |bodies| == 6 && i <= 6
    decreases 6 - i
  {
    if i == 6 then None
    else if bodies[i] == [] then Some(Empty(HEADINGS[i]))
    else if IsPlaceholder(bodies[i]) then Some(Placeholder(HEADINGS[i]))
    else BodyFault(bodies, i + 1)
  }

  function ContentFault(bodies: seq<string>): Option<Reason>
    requires |bodies| == 6
  {
    if BodyFault(bodies, 0).Some? then BodyFault(bodies, 0)
    else if bodies[0] !in STATUSES then Some(StatusReason)
    else if IsNone(bodies[1]) || IsNone(bodies[3]) then Some(PlaceholderReason)
    else if !IsChanges(bodies[2]) then Some(ChangesReason)
    else None
  }

  function ParseLines(lines: seq<string>, expected: string): Parsed {
    var d := Cut(lines, IsHeading);
    var m := First(lines, IsMarker);
    if Count(lines, IsMarker) != 1 then Invalid(if Count(lines, IsMarker) == 0 then MarkerMissing else MarkerDuplicate)
    else if m == |lines| || Trim(lines[m]) != expected then Invalid(ForeignRun)
    else if m > |d.front| then Invalid(MarkerAfterHeading)
    else if !HeadingsMatch(d.sections) then Invalid(HeadingsMismatch)
    else
      var fault := ContentFault(Bodies(d.sections));
      if fault.Some? then Invalid(fault.value) else Ok(Trim(lines[m])[|MARKER_PREFIX|..], Bodies(d.sections))
  }

  function Parse(content: string, expected: string): Parsed {
    if '\0' in content then Invalid(NulByte) else ParseLines(Split(content), expected)
  }

  // ---- Completeness: the documented layout parses back -----------------------------------------------

  /** The lines of a file: some text, the marker, more text, then the six headed sections. */
  function Layout(before: seq<string>, marker: string, after: seq<string>, raws: seq<string>): seq<string>
    requires |raws| == 6
  {
    Compose(Document(before + [marker] + after, Sections(raws, 0)))
  }

  function Sections(raws: seq<string>, i: nat): (r: seq<Section<string>>)
    requires |raws| == 6 && i <= 6
    ensures |r| == 6 - i && forall k :: 0 <= k < |r| ==> r[k] == Section("## " + HEADINGS[i + k], Split(raws[i + k]))
    decreases 6 - i
  {
    if i == 6 then [] else [Section("## " + HEADINGS[i], Split(raws[i]))] + Sections(raws, i + 1)
  }

  predicate IsPlainLine(line: string) {
    '\n' !in line && '\0' !in line && !IsHeading(line) && !IsMarker(line)
  }

  predicate ArePlain(lines: seq<string>) {
    forall i :: 0 <= i < |lines| ==> IsPlainLine(lines[i])
  }

  /** Six sections whose trimmed texts are real: no empty or placeholder body, a legal status and a legal changes list. */
  predicate AreLegal(raws: seq<string>) {
    |raws| == 6 && (forall i :: 0 <= i < 6 ==> ArePlain(Split(raws[i]))) && ContentFault(TrimAll(raws)).None?
  }

  function TrimAll(raws: seq<string>): (r: seq<string>)
    ensures |r| == |raws| && forall i :: 0 <= i < |r| ==> r[i] == Trim(raws[i])
  {
    if raws == [] then [] else [Trim(raws[0])] + TrimAll(raws[1..])
  }

  /** `marker` is a run's marker: the prefix and an id without blanks. */
  predicate IsRunMarker(marker: string, runId: string) {
    marker == MARKER_PREFIX + runId && runId != [] && '\0' !in runId && forall i :: 0 <= i < |runId| ==> !IsBlank(runId[i])
  }

  lemma RunMarkerIsMarker(marker: string, runId: string)
    requires IsRunMarker(marker, runId)
    ensures IsMarker(marker) && Trim(marker) == marker && marker[|MARKER_PREFIX|..] == runId
    ensures '\n' !in marker && '\0' !in marker && !IsHeading(marker)
  {
    TrimTrims(marker);
    assert marker[0] == 'h';
    assert !IsBlank(marker[|marker| - 1]) by {
      assert marker[|marker| - 1] == runId[|runId| - 1];
    }
    assert '\n' !in MARKER_PREFIX && '\0' !in MARKER_PREFIX;
    assert forall i :: |MARKER_PREFIX| <= i < |marker| ==> marker[i] == runId[i - |MARKER_PREFIX|];
    forall i | 0 <= i < |marker| ensures marker[i] != '\n' && marker[i] != '\0' {
      assert i < |MARKER_PREFIX| ==> marker[i] == MARKER_PREFIX[i];
    }
  }

  predicate CleanLine(line: string) {
    '\n' !in line && '\0' !in line
  }

  /** Letters only. */
  predicate IsWord(s: string) {
    s != [] && forall i :: 0 <= i < |s| ==> 'A' <= s[i] <= 'z'
  }

  lemma NamesAreWords(i: nat)
    requires i < 6
    ensures IsWord(HEADINGS[i])
  {
    assert IsWord("Status") && IsWord("Summary") && IsWord("Changes");
    assert IsWord("Verification") && IsWord("Blockers") && IsWord("Continuation");
  }

  lemma WrittenHeading(name: string)
    requires IsWord(name)
    ensures var line := "## " + name; HeadingName(line) == Some(name) && IsLevelTwo(line) && !IsMarker(line) && CleanLine(line)
  {
    SpacedTrims(name);
    TwoHashes(name);
    HashIsNoMarker("## " + name);
  }

  lemma TwoHashes(name: string)
    ensures var line := "## " + name; Hashes(line) == 2 && line[2..] == " " + name && FirstSpace(line) == 2
  {
    var line := "## " + name;
    assert line[0] == '#' && line[1] == '#' && line[2] == ' ';
    assert Hashes(line[1..][1..]) == 0 && FirstSpace(line[1..][1..]) == 0;
  }

  lemma SpacedTrims(name: string)
    requires name != [] && IsTrimmed(name)
    ensures Trim(" " + name) == name && !AllBlank(" " + name)
  {
    var s := " " + name;
    assert s[1..] == name && s[1] == name[0];
    assert BlankPrefix(s) == 1 + BlankPrefix(name) == 1;
  }

  lemma HashIsNoMarker(line: string)
    requires line != [] && line[0] == '#'
    ensures !IsMarker(line)
  {
    assert BlankPrefix(line) == 0;
    assert line[0..] == line;
    if Trim(line) != [] {
      assert Trim(line)[0] == '#';
      assert MARKER_PREFIX[0] == 'h';
    }
  }

  predicate CleanLines(lines: seq<string>) {
    forall i :: 0 <= i < |lines| ==> CleanLine(lines[i])
  }

  lemma {:induction false} JoinHasNoNul(lines: seq<string>)
    requires CleanLines(lines)
    ensures '\0' !in JoinLines(lines)
  {
    if |lines| == 1 {
      assert CleanLine(lines[0]);
    } else if lines != [] {
      JoinHasNoNul(lines[1..]);
      assert CleanLine(lines[0]);
    }
  }

  ghost predicate SectionIsClean(s: Section<string>) {
    CleanLine(s.heading) && !IsMarker(s.heading) && ArePlain(s.body)
  }

  lemma {:induction false} FlattenHas(sections: seq<Section<string>>)
    requires forall i :: 0 <= i < |sections| ==> SectionIsClean(sections[i])
    ensures CleanLines(Flatten(sections)) && NoneOf(Flatten(sections), IsMarker)
  {
    if sections != [] {
      FlattenHas(sections[1..]);
      BothClean([sections[0].heading] + sections[0].body, Flatten(sections[1..]));
    }
  }

  lemma BothClean(a: seq<string>, b: seq<string>)
    requires CleanLines(a) && CleanLines(b)
    ensures CleanLines(a + b)
    ensures NoneOf(a, IsMarker) && NoneOf(b, IsMarker) ==> NoneOf(a + b, IsMarker)
    ensures NoneOf(a, IsHeading) && NoneOf(b, IsHeading) ==> NoneOf(a + b, IsHeading)
  {
    forall i | 0 <= i < |a + b| ensures (a + b)[i] == if i < |a| then a[i] else b[i - |a|] {
    }
  }

  lemma SectionIs(raw: string, name: string, s: Section<string>)
    requires ArePlain(Split(raw)) && IsWord(name) && s == Section("## " + name, Split(raw))
    ensures HeadingName(s.heading) == Some(name) && IsLevelTwo(s.heading) && SectionIsClean(s) && Body(s) == Trim(raw)
  {
    WrittenHeading(name);
    JoinOfSplit(raw);
  }

  lemma SectionAtIs(raws: seq<string>, i: nat)
    requires AreLegal(raws) && i < 6
    ensures var s := Sections(raws, 0)[i]; HeadingMatches(s, i) && SectionIsClean(s) && Body(s) == Trim(raws[i])
  {
    assert Sections(raws, 0)[i] == Section("## " + HEADINGS[0 + i], Split(raws[0 + i]));
    NamesAreWords(i);
    SectionIs(raws[i], HEADINGS[i], Sections(raws, 0)[i]);
  }

  lemma BodiesAre(ss: seq<Section<string>>, raws: seq<string>)
    requires |ss| == |raws| && forall i :: 0 <= i < |ss| ==> Body(ss[i]) == Trim(raws[i])
    ensures Bodies(ss) == TrimAll(raws)
  {
  }

  lemma SectionsAre(raws: seq<string>)
    requires AreLegal(raws)
    ensures var ss := Sections(raws, 0);
            && HeadingsMatch(ss) && Bodies(ss) == TrimAll(raws)
            && (forall i :: 0 <= i < 6 ==> IsHeading(ss[i].heading) && SectionIsClean(ss[i]))
  {
    var ss := Sections(raws, 0);
    forall i | 0 <= i < 6 ensures HeadingMatches(ss[i], i) && SectionIsClean(ss[i]) && Body(ss[i]) == Trim(raws[i]) {
      SectionAtIs(raws, i);
    }
    BodiesAre(ss, raws);
  }

  lemma FrontIsClean(before: seq<string>, marker: string, after: seq<string>)
    requires ArePlain(before) && ArePlain(after) && CleanLine(marker) && !IsHeading(marker)
    ensures NoneOf(before + [marker] + after, IsHeading) && CleanLines(before + [marker] + after)
  {
    BothClean(before, [marker]);
    BothClean(before + [marker], after);
  }

  lemma LayoutCut(before: seq<string>, marker: string, after: seq<string>, raws: seq<string>, runId: string)
    requires ArePlain(before) && ArePlain(after) && IsRunMarker(marker, runId) && AreLegal(raws)
    ensures Cut(Layout(before, marker, after, raws), IsHeading) == Document(before + [marker] + after, Sections(raws, 0))
  {
    var ss := Sections(raws, 0);
    RunMarkerIsMarker(marker, runId);
    SectionsAre(raws);
    FrontIsClean(before, marker, after);
    forall i | 0 <= i < 6 ensures NoneOf(ss[i].body, IsHeading) {
    }
    ComposeCuts(Document(before + [marker] + after, ss), IsHeading);
  }

  lemma LayoutIsClean(before: seq<string>, marker: string, after: seq<string>, raws: seq<string>, runId: string)
    requires ArePlain(before) && ArePlain(after) && IsRunMarker(marker, runId) && AreLegal(raws)
    ensures CleanLines(Layout(before, marker, after, raws)) && NoneOf(Flatten(Sections(raws, 0)), IsMarker) && CleanLines(Flatten(Sections(raws, 0)))
  {
    RunMarkerIsMarker(marker, runId);
    SectionsAre(raws);
    FrontIsClean(before, marker, after);
    FlattenHas(Sections(raws, 0));
    BothClean(before + [marker] + after, Flatten(Sections(raws, 0)));
  }

  lemma LayoutHasOneMarker(before: seq<string>, marker: string, after: seq<string>, raws: seq<string>, runId: string)
    requires ArePlain(before) && ArePlain(after) && IsRunMarker(marker, runId) && AreLegal(raws)
    ensures var lines := Layout(before, marker, after, raws);
            |before| < |lines| && lines[|before|] == marker && Count(lines, IsMarker) == 1 && First(lines, IsMarker) == |before|
  {
    LayoutIsClean(before, marker, after, raws, runId);
    RunMarkerIsMarker(marker, runId);
    var sections := Flatten(Sections(raws, 0));
    BothClean(after, sections);
    LayoutSplits(before, marker, after, sections);
    OnlyBetween(before, marker, after + sections, IsMarker);
  }

  lemma LayoutSplits(before: seq<string>, marker: string, after: seq<string>, sections: seq<string>)
    ensures before + [marker] + after + sections == before + ([marker] + (after + sections))
    ensures (before + [marker] + after + sections)[|before|] == marker
  {
  }

  /** The documented layout, with any plain text around the marker, parses back to exactly its bodies. */
  lemma LayoutParses(before: seq<string>, marker: string, after: seq<string>, raws: seq<string>, runId: string)
    requires ArePlain(before) && ArePlain(after) && IsRunMarker(marker, runId) && AreLegal(raws)
    ensures Parse(JoinLines(Layout(before, marker, after, raws)), marker) == Ok(runId, TrimAll(raws))
  {
    var lines := Layout(before, marker, after, raws);
    LayoutCut(before, marker, after, raws, runId);
    LayoutIsClean(before, marker, after, raws, runId);
    LayoutHasOneMarker(before, marker, after, raws, runId);
    JoinHasNoNul(lines);
    SplitOfJoin(lines);
    RunMarkerIsMarker(marker, runId);
    SectionsAre(raws);
  }

  // ---- Soundness: what is accepted has the layout -------------------------------------------------------

  /** One marker line, the expected one, before the first heading; the six headings in order at level two; legal bodies. */
  ghost predicate IsAccepted(content: string, expected: string, runId: string, bodies: seq<string>, d: Document<string>, m: nat) {
    && content == JoinLines(Compose(d)) && CleanLines(Compose(d)) && IsCut(d, IsHeading)
    && m < |d.front| && Only(Compose(d), IsMarker, m) && Trim(d.front[m]) == expected && runId == expected[|MARKER_PREFIX|..]
    && HeadingsMatch(d.sections)
    && bodies == Bodies(d.sections) && ContentFault(bodies).None?
  }

  lemma {:induction false} SplitIsClean(lines: seq<string>)
    requires '\0' !in JoinLines(lines) && forall i :: 0 <= i < |lines| ==> '\n' !in lines[i]
    ensures CleanLines(lines)
  {
    if |lines| > 1 {
      var s := JoinLines(lines);
      assert s == lines[0] + "\n" + JoinLines(lines[1..]);
      assert forall c :: c in lines[0] || c in JoinLines(lines[1..]) ==> c in s;
      SplitIsClean(lines[1..]);
      assert forall i :: 1 <= i < |lines| ==> lines[i] == lines[1..][i - 1];
    }
  }

  lemma AcceptedHasTheLayout(content: string, expected: string) returns (d: Document<string>, m: nat)
    requires Parse(content, expected).Ok?
    ensures IsAccepted(content, expected, Parse(content, expected).runId, Parse(content, expected).bodies, d, m)
  {
    var lines := Split(content);
    JoinOfSplit(content);
    SplitHasNoNewline(content);
    SplitIsClean(lines);
    CutComposes(lines, IsHeading);
    d, m := Cut(lines, IsHeading), First(lines, IsMarker);
    OnlyIff(lines, m, IsMarker);
    assert Compose(d)[..|d.front|] == d.front;
    if m == |d.front| {
      assert d.sections != [];
      assert lines[m] == d.sections[0].heading;
      MarkerIsNoHeading(lines[m]);
    }
    assert lines[m] == d.front[m];
  }

  lemma MarkerIsNoHeading(line: string)
    requires IsMarker(line)
    ensures !IsHeading(line)
  {
    if IsHeading(line) {
      HashIsNoMarker(line);
    }
  }

  lemma LayoutIsAccepted(content: string, expected: string, runId: string, bodies: seq<string>, d: Document<string>, m: nat)
    requires IsAccepted(content, expected, runId, bodies, d, m)
    ensures Parse(content, expected) == Ok(runId, bodies)
  {
    var lines := Compose(d);
    assert lines != [];
    SplitOfJoin(lines);
    JoinHasNoNul(lines);
    ComposeCuts(d, IsHeading);
    OnlyIff(lines, m, IsMarker);
    assert lines[m] == d.front[m];
  }

  /** A text is accepted with this run and these bodies exactly when it has the layout. */
  lemma ParsesIff(content: string, expected: string, runId: string, bodies: seq<string>)
    ensures Parse(content, expected) == Ok(runId, bodies) <==> exists d, m: nat :: IsAccepted(content, expected, runId, bodies, d, m)
  {
    if Parse(content, expected) == Ok(runId, bodies) {
      var d, m := AcceptedHasTheLayout(content, expected);
    }
    if d, m: nat :| IsAccepted(content, expected, runId, bodies, d, m) {
      LayoutIsAccepted(content, expected, runId, bodies, d, m);
    }
  }

  // ---- Level two -------------------------------------------------------------------------------------------

  /**
   The level is taken from the first space of the line, not from its hashes: two hashes and a space,
   or one hash, another blank and a space.
   */
  lemma LevelTwoIff(line: string)
    requires IsHeading(line)
    ensures IsLevelTwo(line) <==> |line| > 2 && line[2] == ' ' && (Hashes(line) == 2 || (Hashes(line) == 1 && line[1] != ' '))
  {
    var k := Hashes(line);
    assert k < |line| && IsBlank(line[k]) by {
      assert line[k..][0] == line[k];
    }
    if IsLevelTwo(line) {
      assert line[..2][1] == line[1];
    }
  }

  /** So a level-one heading with a tab before the space passes for level two. */
  lemma TabbedLevelOnePasses()
    ensures var line := "#\t Status"; HeadingName(line) == Some("Status") && IsLevelTwo(line) && Hashes(line) == 1
  {
    var line := "#\t Status";
    assert Hashes(line) == 1 by {
      assert Hashes(line[1..]) == 0;
    }
    var after := line[1..];
    assert after == "\t Status";
    assert BlankPrefix(after) == 2 by {
      assert BlankPrefix(after[1..][1..]) == 0;
    }
    assert after[2..] == "Status";
    assert !IsBlank("Status"[5]) && !AllBlank(after) by {
      assert !IsBlank(after[2]);
    }
    LevelTwoIff(line);
  }

  // ---- The parser ---------------------------------------------------------------------------------------------

  lemma ReadOneMore(all: seq<string>, i: nat)
    requires |all| == 6 && i < 6
    ensures all[..i + 1] == all[..i] + [all[i]] && all[..6] == all
    ensures BodyFault(all, i) ==
            if all[i] == [] then Some(Empty(HEADINGS[i])) else if IsPlaceholder(all[i]) then Some(Placeholder(HEADINGS[i])) else BodyFault(all, i + 1)
  {
  }

  /** The loop over the headings; it stops at the first body that is empty or a placeholder. */
  method ReadSections(lines: seq<string>, at: seq<nat>, ghost sections: seq<Section<string>>) returns (bodies: seq<string>, fault: Option<Reason>)
    requires |at| == 6 && Slices(lines, at, sections)
    ensures fault == BodyFault(Bodies(sections), 0)
    ensures fault.None? ==> bodies == Bodies(sections)
  {
    ghost var all := Bodies(sections);
    bodies := [];
    for position := 0 to 6
      invariant bodies == all[..position]
      invariant BodyFault(all, 0) == BodyFault(all, position)
    {
      var end := if position + 1 < 6 then at[position + 1] else |lines|;
      var body := Trim(JoinLines(lines[at[position] + 1..end]));
      assert sections[position] == SectionAt(lines, at, position);
      assert body == all[position];
      ReadOneMore(all, position);
      if body == [] { return bodies, Some(Empty(HEADINGS[position])); }
      if IsPlaceholder(body) { return bodies, Some(Placeholder(HEADINGS[position])); }
      bodies := bodies + [body];
    }
    return bodies, None;
  }

  /** The list of changes: every line that is not blank is an entry, and there is one. */
  method CheckChanges(body: string) returns (ok: bool)
    ensures ok == IsChanges(body)
  {
    if IsNone(body) { return true; }
    var lines := Split(body);
    var entries := 0;
    for i := 0 to |lines|
      invariant entries > 0 <==> exists j :: 0 <= j < i && Trim(lines[j]) != []
      invariant forall j :: 0 <= j < i && Trim(lines[j]) != [] ==> IsEntry(Trim(lines[j]))
    {
      var line := Trim(lines[i]);
      if line != [] {
        if !IsEntry(line) { return false; }
        entries := entries + 1;
      }
    }
    return entries > 0;
  }

  ghost predicate MatchUpTo(sections: seq<Section<string>>, i: nat) {
    |sections| == 6 && i <= 6 && forall j :: 0 <= j < i ==> HeadingMatches(sections[j], j)
  }

  /** Whether the headings found are the six, in order and at level two. */
  method CheckHeadings(lines: seq<string>, at: seq<nat>, ghost sections: seq<Section<string>>) returns (ok: bool)
    requires Slices(lines, at, sections)
    ensures ok == HeadingsMatch(sections)
  {
    if |at| != 6 { return false; }
    for i := 0 to 6
      invariant MatchUpTo(sections, i)
    {
      var section := SectionAt(lines, at, i);
      var matches := HeadingMatches(section, i);
      if !matches { return false; }
    }
    return true;
  }

  method ParseHandoffArtifact(content: string, expected: string) returns (r: Parsed)
    ensures r == Parse(content, expected)
  {
    if '\0' in content { return Invalid(NulByte); }
    var lines := Split(content);
    var markers := Indexes(lines, IsMarker);
    MarkersCounted(lines, markers);
    if |markers| != 1 { return Invalid(if |markers| == 0 then MarkerMissing else MarkerDuplicate); }
    var marker := Trim(lines[markers[0]]);
    if marker != expected { return Invalid(ForeignRun); }
    var headings := Indexes(lines, IsHeading);
    ghost var sections := Cut(lines, IsHeading).sections;
    CutSlices(lines, IsHeading, headings);
    if markers[0] > (if |headings| > 0 then headings[0] else |lines|) { return Invalid(MarkerAfterHeading); }
    var matching := CheckHeadings(lines, headings, sections);
    if !matching { return Invalid(HeadingsMismatch); }
    var bodies, fault := ReadSections(lines, headings, sections);
    if fault.Some? { return Invalid(fault.value); }
    if bodies[0] !in STATUSES { return Invalid(StatusReason); }
    if IsNone(bodies[1]) || IsNone(bodies[3]) { return Invalid(PlaceholderReason); }
    var changes := CheckChanges(bodies[2]);
    if !changes { return Invalid(ChangesReason); }
    return Ok(marker[|MARKER_PREFIX|..], bodies);
  }

  lemma MarkersCounted(lines: seq<string>, at: seq<nat>)
    requires Places(lines, IsMarker, |lines|, at)
    ensures |at| == Count(lines, IsMarker) && (at != [] ==> at[0] == First(lines, IsMarker) < |lines|)
  {
    PlacesCount(lines, IsMarker, |lines|, at);
    assert lines[..|lines|] == lines;
    if at != [] {
      FirstPlace(lines, IsMarker, at);
    }
  }
}
