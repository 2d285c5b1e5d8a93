/**
 The durable launch-intent store: one record per (manager, idempotency key).

 The disk is a value, every store call is one flock section and so one step on it, and the
 class performs the steps in place. A digest is represented by the text it hashes, a minted
 launch id by a number never handed out before.
 */
module Intents {
  import opened JsText
  import opened Options
  import C = Canonical

  datatype Result<+T> = Ok(value: T) | Err(error: Error)

  datatype Error =
    | RequestInvalid(field: string)
    | StateConflict(state: Option<Phase>)
    | KeyConflict(mismatch: string)

  datatype Phase = Recorded | Effecting | Completed | Failed | Unresolved

  datatype Disposition = Bound | IdentityLost | Ambiguous

  datatype Certainty = Absent | Partial | Unknown | Confirmed

  datatype Resolution = Interrupted | EffectUncertain

  datatype Session = Session(source: string, agent: string, kind: string, value: string)

  datatype Evidence = Evidence(at: string, reason: string, terminalId: Option<string>, session: Option<Session>)

  datatype Child = Child(name: string, runId: Option<string>, disposition: Option<Disposition>, evidence: Option<Evidence>)

  type Time = nat

  datatype Intent = Intent(
    manager: string,
    key: string,
    taskDigest: JsString,
    launchId: nat,
    projectRoot: string,
    state: Phase,
    recordedAt: Time,
    updatedAt: Time,
    children: seq<Child>,
    effectCertainty: Option<Certainty>,
    failureCode: Option<string>,
    failurePhase: Option<string>,
    resolution: Option<Resolution>,
    reconciled: bool)

  datatype Binding = Binding(manager: string, key: string)

  // ---- Field checks -------------------------------------------------------------------

  predicate IsIdentifier(s: string) {
    s != "" && '\0' !in s && '\r' !in s && '\n' !in s
  }

  predicate IsManagerKey(s: string) {
    |s| == 64 && forall c :: c in s ==> '0' <= c <= '9' || 'a' <= c <= 'f'
  }

  predicate IsKeyChar(c: char) {
    'A' <= c <= 'Z' || 'a' <= c <= 'z' || '0' <= c <= '9' || c == '.' || c == '_' || c == ':' || c == '-'
  }

  predicate IsIdempotencyKey(s: string) {
    0 < |s| <= 128 && forall c :: c in s ==> IsKeyChar(c)
  }

  predicate IsFailureCode(s: string) {
    0 < |s| <= 64 && 'A' <= s[0] <= 'Z' && forall c :: c in s[1..] ==> 'A' <= c <= 'Z' || '0' <= c <= '9' || c == '_'
  }

  predicate IsFailurePhase(s: string) {
    0 < |s| <= 64 && 'a' <= s[0] <= 'z' && forall c :: c in s[1..] ==> 'a' <= c <= 'z' || '0' <= c <= '9' || c == '_'
  }

  predicate IsSessionField(s: string) {
    IsIdentifier(s) && |s| <= 4096
  }

  predicate IsEvidence(e: Evidence) {
    && |e.at| <= 32
    && 0 < |e.reason| <= 64 && (forall c :: c in e.reason ==> 'a' <= c <= 'z' || c == '_')
    && (e.terminalId.Some? ==> IsIdentifier(e.terminalId.value) && |e.terminalId.value| <= 256)
    && (e.session.Some? ==>
          var s := e.session.value;
          IsSessionField(s.source) && IsSessionField(s.agent) && IsSessionField(s.kind) && IsSessionField(s.value))
  }

  predicate IsChild(c: Child) {
    && IsIdentifier(c.name)
    && (c.runId.Some? ==> IsIdentifier(c.runId.value))
    && (c.evidence.Some? ==> IsEvidence(c.evidence.value))
  }

  predicate AreChildren(cs: seq<Child>) {
    forall i :: 0 <= i < |cs| ==> IsChild(cs[i])
  }

  /** The check every read of a record file makes. */
  predicate IsIntentRecord(r: Intent) {
    && IsManagerKey(r.manager) && IsIdempotencyKey(r.key) && IsIdentifier(r.projectRoot) && AreChildren(r.children)
    && (r.failureCode.Some? ==> IsFailureCode(r.failureCode.value))
    && (r.failurePhase.Some? ==> IsFailurePhase(r.failurePhase.value))
  }

  // ---- Merging child observations ------------------------------------------------------

  function IndexOf(cs: seq<Child>, name: string): (i: nat)
    ensures i <= |cs|
    ensures i < |cs| ==> cs[i].name == name
    ensures forall j :: 0 <= j < i ==> cs[j].name != name
  {
    if cs == [] || cs[0].name == name then 0 else IndexOf(cs[1..], name) + 1
  }

  function Override<T>(had: Option<T>, given: Option<T>): Option<T> {
    if given.Some? then given else had
  }

  function Filled(c: Child, added: Child): Child {
    c.(runId := Override(c.runId, added.runId),
       disposition := Override(c.disposition, added.disposition),
       evidence := Override(c.evidence, added.evidence))
  }

  function MergedOne(cs: seq<Child>, added: Child): seq<Child> {
    var i := IndexOf(cs, added.name);
    if i == |cs| then cs + [added] else cs[i := Filled(cs[i], added)]
  }

  function Merged(cs: seq<Child>, added: seq<Child>): seq<Child> {
    if added == [] then cs else MergedOne(Merged(cs, added[..|added| - 1]), added[|added| - 1])
  }

  method MergeChildren(current: seq<Child>, added: seq<Child>) returns (merged: seq<Child>)
    ensures merged == Merged(current, added)
  {
    merged := current;
    var n := 0;
    while n < |added|
      invariant 0 <= n <= |added|
      invariant merged == Merged(current, added[..n])
    {
      var child := added[n];
      var index := 0;
      while index < |merged| && merged[index].name != child.name
        invariant 0 <= index <= |merged|
        invariant forall j :: 0 <= j < index ==> merged[j].name != child.name
      {
        index := index + 1;
      }
      assert added[..n + 1][..n] == added[..n];
      if index == |merged| {
        merged := merged + [child];
      } else {
        var entry := merged[index];
        if child.runId.Some? { entry := entry.(runId := child.runId); }
        if child.disposition.Some? { entry := entry.(disposition := child.disposition); }
        if child.evidence.Some? { entry := entry.(evidence := child.evidence); }
        merged := merged[index := entry];
      }
      n := n + 1;
    }
    assert added[..n] == added;
  }

  ghost predicate DistinctNames(cs: seq<Child>) {
    forall i, j :: 0 <= i < j < |cs| ==> cs[i].name != cs[j].name
  }

  /** `a`'s names, in order, begin `b`'s names. */
  ghost predicate NamesExtend(a: seq<Child>, b: seq<Child>) {
    |a| <= |b| && forall i :: 0 <= i < |a| ==> a[i].name == b[i].name
  }

  /** The last value any entry of that name gives a field, reading left to right. */
  function LastRunId(cs: seq<Child>, name: string): Option<string> {
    if cs == [] then None
    else
      var c := cs[|cs| - 1];
      if c.name == name && c.runId.Some? then c.runId else LastRunId(cs[..|cs| - 1], name)
  }

  function LastDisposition(cs: seq<Child>, name: string): Option<Disposition> {
    if cs == [] then None
    else
      var c := cs[|cs| - 1];
      if c.name == name && c.disposition.Some? then c.disposition else LastDisposition(cs[..|cs| - 1], name)
  }

  function LastEvidence(cs: seq<Child>, name: string): Option<Evidence> {
    if cs == [] then None
    else
      var c := cs[|cs| - 1];
      if c.name == name && c.evidence.Some? then c.evidence else LastEvidence(cs[..|cs| - 1], name)
  }

  function NamesOf(cs: seq<Child>): set<string> {
    set c | c in cs :: c.name
  }

  /** An entry carries exactly what an observation log last said of its name. */
  ghost predicate Says(c: Child, log: seq<Child>) {
    && c.runId == LastRunId(log, c.name)
    && c.disposition == LastDisposition(log, c.name)
    && c.evidence == LastEvidence(log, c.name)
  }

  ghost predicate Summarizes(cs: seq<Child>, log: seq<Child>) {
    DistinctNames(cs) && NamesOf(cs) == NamesOf(log) && forall i :: 0 <= i < |cs| ==> Says(cs[i], log)
  }

  lemma {:induction false} UnnamedHasNoLast(log: seq<Child>, name: string)
    requires name !in NamesOf(log)
    ensures LastRunId(log, name) == None && LastDisposition(log, name) == None && LastEvidence(log, name) == None
  {
    if log != [] {
      var c := log[|log| - 1];
      assert c in log;
      assert forall d :: d in log[..|log| - 1] ==> d in log;
      UnnamedHasNoLast(log[..|log| - 1], name);
    }
  }

  lemma LastAfter(log: seq<Child>, added: Child, name: string)
    ensures var log' := log + [added];
            if name == added.name
            then && LastRunId(log', name) == Override(LastRunId(log, name), added.runId)
                 && LastDisposition(log', name) == Override(LastDisposition(log, name), added.disposition)
                 && LastEvidence(log', name) == Override(LastEvidence(log, name), added.evidence)
            else && LastRunId(log', name) == LastRunId(log, name)
                 && LastDisposition(log', name) == LastDisposition(log, name)
                 && LastEvidence(log', name) == LastEvidence(log, name)
  {
    var log' := log + [added];
    assert log'[..|log'| - 1] == log && log'[|log'| - 1] == added;
  }

  lemma NamesOfAppend(log: seq<Child>, added: Child)
    ensures NamesOf(log + [added]) == NamesOf(log) + {added.name}
  {
    assert added in log + [added];
    assert forall c :: c in log ==> c in log + [added];
    assert forall c :: c in log + [added] ==> c in log || c == added;
  }

  lemma NamesOfFilled(cs: seq<Child>, i: nat, c: Child)
    requires i < |cs| && c.name == cs[i].name
    ensures NamesOf(cs[i := c]) == NamesOf(cs)
  {
    var r := cs[i := c];
    forall n ensures n in NamesOf(r) <==> n in NamesOf(cs) {
      if n in NamesOf(r) {
        var k :| 0 <= k < |r| && r[k].name == n;
        assert cs[k] in cs;
      }
      if n in NamesOf(cs) {
        var k :| 0 <= k < |cs| && cs[k].name == n;
        assert r[k] in r;
      }
    }
  }

  lemma MergedOneSummarizes(cs: seq<Child>, log: seq<Child>, added: Child)
    requires Summarizes(cs, log)
    ensures Summarizes(MergedOne(cs, added), log + [added])
    ensures NamesExtend(cs, MergedOne(cs, added))
  {
    var i := IndexOf(cs, added.name);
    NamesOfAppend(log, added);
    if i == |cs| {
      NamesOfAppend(cs, added);
      UnnamedHasNoLast(log, added.name);
    } else {
      NamesOfFilled(cs, i, Filled(cs[i], added));
    }
    var r := MergedOne(cs, added);
    forall k | 0 <= k < |r| ensures Says(r[k], log + [added]) {
      LastAfter(log, added, r[k].name);
    }
  }

  /**
   Merging loses nothing and invents nothing: later entries fill or replace single fields, no
   name is repeated, and the names already there keep their places.
   */
  lemma {:induction false} MergedSummarizes(cs: seq<Child>, log: seq<Child>, added: seq<Child>)
    requires Summarizes(cs, log)
    ensures Summarizes(Merged(cs, added), log + added)
    ensures NamesExtend(cs, Merged(cs, added))
  {
    if added == [] {
      assert log + added == log;
    } else {
      var front := added[..|added| - 1];
      MergedSummarizes(cs, log, front);
      MergedOneSummarizes(Merged(cs, front), log + front, added[|added| - 1]);
      assert log + front + [added[|added| - 1]] == log + added;
    }
  }

  // ---- The store as a step machine ------------------------------------------------------

  datatype Disk = Disk(records: map<Binding, Intent>, managers: set<string>, minted: nat)

  datatype BeginInput = BeginInput(manager: string, key: string, task: C.Task, projectRoot: string)

  datatype BeginResult = Launch(intent: Intent, resumed: bool) | Replay(intent: Intent) | Unsettled(intent: Intent)

  /** What a transition takes from the caller's copy of the record. */
  datatype Ref = Ref(manager: string, key: string, launchId: nat)

  datatype Outcome = Outcome(certainty: Certainty, code: Option<string>, phase: Option<string>, children: seq<Child>)

  function Fresh(input: BeginInput, launchId: nat, recordedAt: Time, updatedAt: Time): Intent {
    Intent(input.manager, input.key, C.TaskText(input.task), launchId, input.projectRoot, Recorded, recordedAt, updatedAt,
           [], None, None, None, None, false)
  }

  function BeginChecked(d: Disk, input: BeginInput, recordedAt: Time, updatedAt: Time): (Disk, Result<BeginResult>) {
    var b := Binding(input.manager, input.key);
    var d1 := d.(managers := d.managers + {input.manager});
    if b !in d.records then
      var r := Fresh(input, d.minted, recordedAt, updatedAt);
      (d1.(records := d.records[b := r], minted := d.minted + 1), Ok(Launch(r, false)))
    else
      var r := d.records[b];
      if r.taskDigest != C.TaskText(input.task) then (d1, Err(KeyConflict("taskDigest")))
      else if r.projectRoot != input.projectRoot then (d1, Err(KeyConflict("projectRoot")))
      else if r.state == Recorded then (d1, Ok(Launch(r, true)))
      else if r.state == Unresolved then (d1, Ok(Unsettled(r)))
      else (d1, Ok(Replay(r)))
  }

  function BeginStep(d: Disk, input: BeginInput, recordedAt: Time, updatedAt: Time): (Disk, Result<BeginResult>) {
    if !IsManagerKey(input.manager) then (d, Err(RequestInvalid("managerSessionKey")))
    else if !IsIdempotencyKey(input.key) then (d, Err(RequestInvalid("idempotencyKey")))
    else if !IsIdentifier(input.projectRoot) then (d, Err(RequestInvalid("projectRoot")))
    else BeginChecked(d, input, recordedAt, updatedAt)
  }

  function TransitionStep(d: Disk, ref: Ref, allowed: set<Phase>, next: Intent -> Intent): (Disk, Result<Intent>) {
    var b := Binding(ref.manager, ref.key);
    if !IsManagerKey(ref.manager) then (d, Err(RequestInvalid("managerSessionKey")))
    else if ref.manager !in d.managers || b !in d.records then (d, Err(StateConflict(None)))
    else
      var current := d.records[b];
      if current.launchId != ref.launchId || current.state !in allowed then (d, Err(StateConflict(Some(current.state))))
      else (d.(records := d.records[b := next(current)]), Ok(next(current)))
  }

  function Effected(r: Intent, now: Time): Intent {
    r.(state := Effecting, updatedAt := now)
  }

  function Observed(r: Intent, children: seq<Child>, now: Time): Intent {
    r.(children := Merged(r.children, children), updatedAt := now)
  }

  function Finished(r: Intent, children: seq<Child>, now: Time): Intent {
    r.(state := Completed, children := Merged(r.children, children), updatedAt := now)
  }

  function FailedAs(r: Intent, o: Outcome, now: Time): Intent {
    var merged := Merged(r.children, o.children);
    var next := r.(children := merged, effectCertainty := Some(o.certainty),
                   failureCode := Override(r.failureCode, o.code), failurePhase := Override(r.failurePhase, o.phase), updatedAt := now);
    if o.certainty == Absent && merged == [] then next.(state := Failed)
    else next.(state := Unresolved, resolution := Some(EffectUncertain))
  }

  predicate Settled(cs: seq<Child>) {
    cs != [] && forall i :: 0 <= i < |cs| ==> cs[i].disposition == Some(Bound) || cs[i].disposition == Some(IdentityLost)
  }

  function Reconciled(r: Intent, dispositions: seq<Child>, now: Time): Intent {
    var children := Merged(r.children, dispositions);
    var next := r.(children := children, updatedAt := now);
    if Settled(children) then next.(state := Completed, reconciled := true) else next
  }

  function InterruptedAs(r: Intent, now: Time): Intent {
    r.(state := Unresolved, resolution := Some(Interrupted),
       effectCertainty := Some(if r.effectCertainty.Some? then r.effectCertainty.value else Unknown), updatedAt := now)
  }

  function Refused(d: Disk, field: string): (Disk, Result<Intent>) {
    (d, Err(RequestInvalid(field)))
  }

  function MarkEffectingStep(d: Disk, ref: Ref, now: Time): (Disk, Result<Intent>) {
    TransitionStep(d, ref, {Recorded}, r => Effected(r, now))
  }

  function RecordChildrenStep(d: Disk, ref: Ref, children: seq<Child>, now: Time): (Disk, Result<Intent>) {
    if !AreChildren(children) then Refused(d, "children")
    else TransitionStep(d, ref, {Effecting}, r => Observed(r, children, now))
  }

  function CompleteStep(d: Disk, ref: Ref, children: seq<Child>, now: Time): (Disk, Result<Intent>) {
    if !AreChildren(children) then Refused(d, "children")
    else TransitionStep(d, ref, {Effecting}, r => Finished(r, children, now))
  }

  function FailStep(d: Disk, ref: Ref, o: Outcome, now: Time): (Disk, Result<Intent>) {
    if o.code.Some? && !IsFailureCode(o.code.value) then Refused(d, "failureCode")
    else if o.phase.Some? && !IsFailurePhase(o.phase.value) then Refused(d, "failurePhase")
    else if !AreChildren(o.children) then Refused(d, "children")
    else TransitionStep(d, ref, {Recorded, Effecting}, r => FailedAs(r, o, now))
  }

  function ReconcileStep(d: Disk, ref: Ref, dispositions: seq<Child>, now: Time): (Disk, Result<Intent>) {
    if !AreChildren(dispositions) then Refused(d, "dispositions")
    else if exists i :: 0 <= i < |dispositions| && dispositions[i].disposition.None? then Refused(d, "dispositions")
    else TransitionStep(d, ref, {Unresolved}, r => Reconciled(r, dispositions, now))
  }

  /** One record rewrite of the restart sweep. */
  function RecoverRecordStep(d: Disk, b: Binding, now: Time): Disk {
    if b in d.records && d.records[b].state == Effecting
    then d.(records := d.records[b := InterruptedAs(d.records[b], now)])
    else d
  }

  /** The records after some bindings have been swept. */
  function Swept(records: map<Binding, Intent>, done: set<Binding>, now: Binding -> Time): map<Binding, Intent> {
    map b | b in records :: if b in done && records[b].state == Effecting then InterruptedAs(records[b], now(b)) else records[b]
  }

  function BindingsOf(records: map<Binding, Intent>, managers: set<string>): set<Binding> {
    set b | b in records && b.manager in managers
  }

  function EffectingIn(records: map<Binding, Intent>, bindings: set<Binding>): set<Binding> {
    set b | b in bindings && b in records && records[b].state == Effecting
  }

  /** The whole sweep over some managers. */
  function Recovered(d: Disk, managers: set<string>, now: Binding -> Time): Disk {
    d.(records := Swept(d.records, BindingsOf(d.records, managers), now))
  }

  // ---- What every reachable disk satisfies -------------------------------------------------

  function Rank(p: Phase): nat {
    match p
    case Recorded => 0
    case Effecting => 1
    case Unresolved => 2
    case Completed => 3
    case Failed => 3
  }

  /** The evidence each resting state demands. */
  ghost predicate HonestRecord(r: Intent) {
    && DistinctNames(r.children)
    && (r.reconciled ==> r.state == Completed)
    && match r.state
       case Recorded => r.children == [] && r.effectCertainty.None? && r.resolution.None?
       case Effecting => r.effectCertainty.None? && r.resolution.None?
       case Failed => r.children == [] && r.effectCertainty == Some(Absent) && r.resolution.None?
       case Unresolved =>
         && r.effectCertainty.Some? && r.resolution.Some?
         && (r.resolution == Some(EffectUncertain) && r.effectCertainty == Some(Absent) ==> r.children != [])
       case Completed =>
         if r.reconciled then Settled(r.children) && r.resolution.Some? else r.effectCertainty.None? && r.resolution.None?
  }

  ghost predicate ValidEntry(d: Disk, b: Binding)
    requires b in d.records
  {
    var r := d.records[b];
    && r.manager == b.manager && r.key == b.key && b.manager in d.managers
    && r.launchId < d.minted
    && IsIntentRecord(r) && HonestRecord(r)
  }

  ghost predicate ValidDisk(d: Disk) {
    && (forall b :: b in d.records ==> ValidEntry(d, b))
    && (forall b, c :: b in d.records && c in d.records && b != c ==> d.records[b].launchId != d.records[c].launchId)
  }

  /** How one record may change, over any number of steps. */
  ghost predicate Evolves(r: Intent, s: Intent) {
    && s.manager == r.manager && s.key == r.key
    && s.launchId == r.launchId && s.taskDigest == r.taskDigest && s.projectRoot == r.projectRoot && s.recordedAt == r.recordedAt
    && Rank(r.state) <= Rank(s.state)
    && NamesExtend(r.children, s.children)
    && (Rank(r.state) == 3 ==> s == r)
  }

  ghost predicate DiskEvolves(d: Disk, e: Disk) {
    d.minted <= e.minted && d.managers <= e.managers
    && forall b :: b in d.records ==> b in e.records && Evolves(d.records[b], e.records[b])
  }

  // ---- One step ---------------------------------------------------------------------------

  datatype Event =
    | Begin(input: BeginInput, recordedAt: Time, updatedAt: Time)
    | MarkEffecting(ref: Ref, now: Time)
    | RecordChildren(ref: Ref, children: seq<Child>, now: Time)
    | Complete(ref: Ref, children: seq<Child>, now: Time)
    | Fail(ref: Ref, outcome: Outcome, now: Time)
    | Reconcile(ref: Ref, dispositions: seq<Child>, now: Time)
    | RecoverRecord(binding: Binding, now: Time)
    | MarkUnsure(ref: Ref, now: Time)   // a `markEffecting` that lands and then reports a failure
    | Crash

  /**
   A crash between sections loses nothing that was committed; module Durable has the rest. For calls
   other than `markEffecting` the state alone matters here, not what a landed call then reports.
   */
  function After(d: Disk, e: Event): Disk {
    match e
    case Begin(input, at, up) => BeginStep(d, input, at, up).0
    case MarkEffecting(ref, now) => MarkEffectingStep(d, ref, now).0
    case RecordChildren(ref, cs, now) => RecordChildrenStep(d, ref, cs, now).0
    case Complete(ref, cs, now) => CompleteStep(d, ref, cs, now).0
    case Fail(ref, o, now) => FailStep(d, ref, o, now).0
    case Reconcile(ref, ds, now) => ReconcileStep(d, ref, ds, now).0
    case RecoverRecord(b, now) => RecoverRecordStep(d, b, now)
    case MarkUnsure(ref, now) => MarkEffectingStep(d, ref, now).0
    case Crash => d
  }

  function Run(d: Disk, events: seq<Event>): Disk
    decreases |events|
  {
    if events == [] then d else Run(After(d, events[0]), events[1..])
  }

  lemma MergedAreChildren(cs: seq<Child>, added: seq<Child>)
    requires AreChildren(cs) && AreChildren(added)
    ensures AreChildren(Merged(cs, added))
  {
    if added != [] {
      MergedAreChildren(cs, added[..|added| - 1]);
    }
  }

  lemma {:induction false} SelfSummary(cs: seq<Child>)
    requires DistinctNames(cs)
    ensures Summarizes(cs, cs)
  {
    if cs != [] {
      var front := cs[..|cs| - 1];
      var last := cs[|cs| - 1];
      SelfSummary(front);
      assert cs == front + [last];
      assert forall k :: 0 <= k < |front| ==> front[k] == cs[k] && front[k].name != last.name;
      UnnamedHasNoLast(front, last.name);
      forall i | 0 <= i < |cs| ensures Says(cs[i], cs) {
        LastAfter(front, last, cs[i].name);
        if i < |front| {
          assert front[i] in front;
        }
      }
    }
  }

  /** The record a transition writes is legal and evolves from the one it read. */
  ghost predicate GoodTransition(r: Intent, s: Intent) {
    IsIntentRecord(s) && HonestRecord(s) && Evolves(r, s)
  }

  lemma ReplacePreserves(d: Disk, b: Binding, s: Intent)
    requires ValidDisk(d) && b in d.records && GoodTransition(d.records[b], s)
    ensures ValidDisk(d.(records := d.records[b := s]))
    ensures DiskEvolves(d, d.(records := d.records[b := s]))
  {
    var e := d.(records := d.records[b := s]);
    forall c | c in e.records ensures ValidEntry(e, c) {
      assert ValidEntry(d, c);
    }
    forall c | c in d.records ensures Evolves(d.records[c], e.records[c]) {
    }
  }

  lemma TransitionPreserves(d: Disk, ref: Ref, allowed: set<Phase>, next: Intent -> Intent)
    requires ValidDisk(d)
    requires forall r :: IsIntentRecord(r) && HonestRecord(r) && r.state in allowed ==> GoodTransition(r, next(r))
    ensures var e := TransitionStep(d, ref, allowed, next).0; ValidDisk(e) && DiskEvolves(d, e)
  {
    var b := Binding(ref.manager, ref.key);
    if b in d.records {
      assert ValidEntry(d, b);
      var r := d.records[b];
      if r.state in allowed {
        ReplacePreserves(d, b, next(r));
      }
    }
  }

  lemma MergeIsGood(r: Intent, cs: seq<Child>)
    requires IsIntentRecord(r) && HonestRecord(r) && AreChildren(cs)
    ensures AreChildren(Merged(r.children, cs)) && DistinctNames(Merged(r.children, cs)) && NamesExtend(r.children, Merged(r.children, cs))
  {
    MergedAreChildren(r.children, cs);
  }

  lemma RecordChildrenPreserves(d: Disk, ref: Ref, cs: seq<Child>, now: Time)
    requires ValidDisk(d) && AreChildren(cs)
    ensures var e := TransitionStep(d, ref, {Effecting}, r => Observed(r, cs, now)).0; ValidDisk(e) && DiskEvolves(d, e)
  {
    forall r | IsIntentRecord(r) && HonestRecord(r) && r.state in {Effecting} ensures GoodTransition(r, Observed(r, cs, now)) {
      MergeIsGood(r, cs);
    }
    TransitionPreserves(d, ref, {Effecting}, r => Observed(r, cs, now));
  }

  lemma CompletePreserves(d: Disk, ref: Ref, cs: seq<Child>, now: Time)
    requires ValidDisk(d) && AreChildren(cs)
    ensures var e := TransitionStep(d, ref, {Effecting}, r => Finished(r, cs, now)).0; ValidDisk(e) && DiskEvolves(d, e)
  {
    forall r | IsIntentRecord(r) && HonestRecord(r) && r.state in {Effecting} ensures GoodTransition(r, Finished(r, cs, now)) {
      MergeIsGood(r, cs);
    }
    TransitionPreserves(d, ref, {Effecting}, r => Finished(r, cs, now));
  }

  lemma FailedIsGood(r: Intent, o: Outcome, now: Time)
    requires IsIntentRecord(r) && HonestRecord(r) && r.state in {Recorded, Effecting} && AreChildren(o.children)
    requires (o.code.Some? ==> IsFailureCode(o.code.value)) && (o.phase.Some? ==> IsFailurePhase(o.phase.value))
    ensures GoodTransition(r, FailedAs(r, o, now))
  {
    MergeIsGood(r, o.children);
  }

  lemma FailPreserves(d: Disk, ref: Ref, o: Outcome, now: Time)
    requires ValidDisk(d) && AreChildren(o.children)
    requires (o.code.Some? ==> IsFailureCode(o.code.value)) && (o.phase.Some? ==> IsFailurePhase(o.phase.value))
    ensures var e := TransitionStep(d, ref, {Recorded, Effecting}, r => FailedAs(r, o, now)).0; ValidDisk(e) && DiskEvolves(d, e)
  {
    forall r | IsIntentRecord(r) && HonestRecord(r) && r.state in {Recorded, Effecting} ensures GoodTransition(r, FailedAs(r, o, now)) {
      FailedIsGood(r, o, now);
    }
    TransitionPreserves(d, ref, {Recorded, Effecting}, r => FailedAs(r, o, now));
  }

  lemma ReconcilePreserves(d: Disk, ref: Ref, ds: seq<Child>, now: Time)
    requires ValidDisk(d) && AreChildren(ds)
    ensures var e := TransitionStep(d, ref, {Unresolved}, r => Reconciled(r, ds, now)).0; ValidDisk(e) && DiskEvolves(d, e)
  {
    forall r | IsIntentRecord(r) && HonestRecord(r) && r.state in {Unresolved} ensures GoodTransition(r, Reconciled(r, ds, now)) {
      MergeIsGood(r, ds);
    }
    TransitionPreserves(d, ref, {Unresolved}, r => Reconciled(r, ds, now));
  }

  lemma NothingEvolves(d: Disk)
    ensures DiskEvolves(d, d)
  {
    forall b | b in d.records ensures Evolves(d.records[b], d.records[b]) {
    }
  }

  lemma StepPreserves(d: Disk, e: Event)
    requires ValidDisk(d)
    ensures ValidDisk(After(d, e)) && DiskEvolves(d, After(d, e))
  {
    NothingEvolves(d);
    match e
    case Begin(input, at, up) => BeginPreserves(d, input, at, up);
    case MarkEffecting(ref, now) => TransitionPreserves(d, ref, {Recorded}, r => Effected(r, now));
    case MarkUnsure(ref, now) => TransitionPreserves(d, ref, {Recorded}, r => Effected(r, now));
    case RecordChildren(ref, cs, now) => if AreChildren(cs) { RecordChildrenPreserves(d, ref, cs, now); }
    case Complete(ref, cs, now) => if AreChildren(cs) { CompletePreserves(d, ref, cs, now); }
    case Fail(ref, o, now) =>
      if AreChildren(o.children) && (o.code.Some? ==> IsFailureCode(o.code.value)) && (o.phase.Some? ==> IsFailurePhase(o.phase.value)) {
        FailPreserves(d, ref, o, now);
      }
    case Reconcile(ref, ds, now) => if AreChildren(ds) { ReconcilePreserves(d, ref, ds, now); }
    case RecoverRecord(b, now) =>
      if b in d.records && d.records[b].state == Effecting {
        assert ValidEntry(d, b);
        ReplacePreserves(d, b, InterruptedAs(d.records[b], now));
      }
    case Crash =>
  }

  lemma MoreManagers(d: Disk, manager: string)
    requires ValidDisk(d)
    ensures var e := d.(managers := d.managers + {manager}); ValidDisk(e) && DiskEvolves(d, e)
  {
    NothingEvolves(d);
    var e := d.(managers := d.managers + {manager});
    forall c | c in e.records ensures ValidEntry(e, c) {
      assert ValidEntry(d, c);
    }
  }

  lemma MintPreserves(d: Disk, b: Binding, r: Intent)
    requires ValidDisk(d) && b !in d.records && b.manager in d.managers
    requires r.manager == b.manager && r.key == b.key && r.launchId == d.minted && IsIntentRecord(r) && HonestRecord(r)
    ensures var e := d.(records := d.records[b := r], minted := d.minted + 1); ValidDisk(e) && DiskEvolves(d, e)
  {
    NothingEvolves(d);
    var e := d.(records := d.records[b := r], minted := d.minted + 1);
    forall c | c in d.records ensures d.records[c].launchId != d.minted && ValidEntry(e, c) {
      assert ValidEntry(d, c);
    }
  }

  lemma BeginPreserves(d: Disk, input: BeginInput, at: Time, up: Time)
    requires ValidDisk(d)
    ensures var e := BeginStep(d, input, at, up).0; ValidDisk(e) && DiskEvolves(d, e)
  {
    NothingEvolves(d);
    var d1 := d.(managers := d.managers + {input.manager});
    MoreManagers(d, input.manager);
    var b := Binding(input.manager, input.key);
    if IsManagerKey(input.manager) && IsIdempotencyKey(input.key) && IsIdentifier(input.projectRoot) && b !in d.records {
      MintPreserves(d1, b, Fresh(input, d1.minted, at, up));
      EvolvesIsTransitive(d, d1, BeginStep(d, input, at, up).0);
    }
  }

  lemma EvolvesIsTransitive(d: Disk, e: Disk, f: Disk)
    requires DiskEvolves(d, e) && DiskEvolves(e, f)
    ensures DiskEvolves(d, f)
  {
    forall b | b in d.records ensures b in f.records && Evolves(d.records[b], f.records[b]) {
      assert Evolves(d.records[b], e.records[b]);
      assert Evolves(e.records[b], f.records[b]);
    }
  }

  // ---- Every run ---------------------------------------------------------------------------

  /**
   Whatever callers do, in whatever order, with however many crashes and restart sweeps cut
   short anywhere: the binding's identity never changes, its state only rises, its child names
   never vanish, and a settled record is never touched again.
   */
  lemma {:induction false} RunPreserves(d: Disk, events: seq<Event>)
    requires ValidDisk(d)
    ensures ValidDisk(Run(d, events)) && DiskEvolves(d, Run(d, events))
    decreases |events|
  {
    if events == [] {
      forall b | b in d.records ensures Evolves(d.records[b], d.records[b]) {
      }
    } else {
      StepPreserves(d, events[0]);
      RunPreserves(After(d, events[0]), events[1..]);
      EvolvesIsTransitive(d, After(d, events[0]), Run(d, events));
    }
  }

  /** This step writes the effecting record of a binding; a plain `markEffecting` also says so to its caller. */
  predicate WritesEffect(d: Disk, e: Event, b: Binding) {
    (e.MarkEffecting? || e.MarkUnsure?) && Binding(e.ref.manager, e.ref.key) == b && MarkEffectingStep(d, e.ref, e.now).1.Ok?
  }

  /** How many `markEffecting` calls for one binding succeed in a run. */
  function EffectsGranted(d: Disk, events: seq<Event>, b: Binding): nat
    decreases |events|
  {
    if events == [] then 0
    else (if WritesEffect(d, events[0], b) && events[0].MarkEffecting? then 1 else 0) + EffectsGranted(After(d, events[0]), events[1..], b)
  }

  /** How many of them land although they report a failure. */
  function EffectsUnsure(d: Disk, events: seq<Event>, b: Binding): nat
    decreases |events|
  {
    if events == [] then 0
    else (if WritesEffect(d, events[0], b) && events[0].MarkUnsure? then 1 else 0) + EffectsUnsure(After(d, events[0]), events[1..], b)
  }

  /** At most one effect per (manager, idempotency key), reported or not, and none once the record is past `recorded`. */
  lemma {:induction false} AtMostOneEffect(d: Disk, events: seq<Event>, b: Binding)
    requires ValidDisk(d)
    ensures EffectsGranted(d, events, b) + EffectsUnsure(d, events, b) <= if b in d.records && d.records[b].state != Recorded then 0 else 1
    decreases |events|
  {
    if events != [] {
      StepPreserves(d, events[0]);
      var d1 := After(d, events[0]);
      AtMostOneEffect(d1, events[1..], b);
      if b in d.records {
        assert Evolves(d.records[b], d1.records[b]);
      }
      if WritesEffect(d, events[0], b) {
        assert d1.records[b].state == Effecting;
      }
    }
  }

  /** Only `begin` on a fresh binding or a successful transition ever writes, and only its own binding. */
  predicate Touches(e: Event, b: Binding) {
    match e
    case Begin(input, _, _) => Binding(input.manager, input.key) == b
    case RecoverRecord(c, _) => c == b
    case Crash => false
    case _ => Binding(e.ref.manager, e.ref.key) == b
  }

  lemma StepTouchesOneBinding(d: Disk, e: Event, b: Binding)
    requires !Touches(e, b)
    ensures b in After(d, e).records <==> b in d.records
    ensures b in d.records ==> After(d, e).records[b] == d.records[b]
  {
  }

  /** The same textual key under two managers, or two keys of one manager, never interfere. */
  lemma {:induction false} BindingsAreIndependent(d: Disk, events: seq<Event>, b: Binding)
    requires forall i :: 0 <= i < |events| ==> !Touches(events[i], b)
    ensures b in Run(d, events).records <==> b in d.records
    ensures b in d.records ==> Run(d, events).records[b] == d.records[b]
    decreases |events|
  {
    if events != [] {
      StepTouchesOneBinding(d, events[0], b);
      BindingsAreIndependent(After(d, events[0]), events[1..], b);
    }
  }

  predicate IsEffecting(d: Disk, b: Binding) {
    b in d.records && d.records[b].state == Effecting
  }

  lemma OnlyMarksMakeEffecting(d: Disk, e: Event, b: Binding)
    requires !IsEffecting(d, b) && IsEffecting(After(d, e), b)
    ensures WritesEffect(d, e, b)
  {
  }

  lemma {:induction false} EffectingWasWritten(d: Disk, events: seq<Event>, b: Binding)
    requires !IsEffecting(d, b) && IsEffecting(Run(d, events), b)
    ensures EffectsGranted(d, events, b) + EffectsUnsure(d, events, b) >= 1
    decreases |events|
  {
    var d1 := After(d, events[0]);
    if IsEffecting(d1, b) {
      OnlyMarksMakeEffecting(d, events[0], b);
    } else {
      EffectingWasWritten(d1, events[1..], b);
    }
  }

  /** `events[i]` writes the effecting record. */
  ghost predicate WritesAt(d: Disk, events: seq<Event>, b: Binding, i: nat) {
    i < |events| && WritesEffect(Run(d, events[..i]), events[i], b)
  }

  lemma WritesLater(d: Disk, events: seq<Event>, b: Binding, i: nat)
    requires 0 < i < |events|
    ensures WritesAt(d, events, b, i) <==> WritesAt(After(d, events[0]), events[1..], b, i - 1)
  {
    assert events[..i][1..] == events[1..][..i - 1] && events[..i][0] == events[0];
  }

  lemma {:induction false} WriteIsCounted(d: Disk, events: seq<Event>, b: Binding, i: nat)
    requires WritesAt(d, events, b, i)
    ensures EffectsGranted(d, events, b) + EffectsUnsure(d, events, b) >= 1
    decreases |events|
  {
    if i == 0 {
      assert events[..0] == [];
    } else {
      WritesLater(d, events, b, i);
      WriteIsCounted(After(d, events[0]), events[1..], b, i - 1);
    }
  }

  /** The one write there is, and whether it was granted. */
  ghost predicate IsTheWrite(d: Disk, events: seq<Event>, b: Binding, i: nat) {
    && WritesAt(d, events, b, i) && (forall j: nat :: WritesAt(d, events, b, j) ==> j == i)
    && EffectsGranted(d, events, b) == (if events[i].MarkEffecting? then 1 else 0)
  }

  lemma FirstIsTheWrite(d: Disk, events: seq<Event>, b: Binding)
    requires WritesAt(d, events, b, 0) && EffectsGranted(d, events, b) + EffectsUnsure(d, events, b) == 1
    ensures IsTheWrite(d, events, b, 0)
  {
    assert events[..0] == [];
    forall j: nat | WritesAt(d, events, b, j) ensures j == 0 {
      if j > 0 {
        WritesLater(d, events, b, j);
        WriteIsCounted(After(d, events[0]), events[1..], b, j - 1);
      }
    }
  }

  lemma {:induction false} TheOneWrite(d: Disk, events: seq<Event>, b: Binding) returns (i: nat)
    requires EffectsGranted(d, events, b) + EffectsUnsure(d, events, b) == 1
    ensures IsTheWrite(d, events, b, i)
    decreases |events|
  {
    assert events[..0] == [];
    if WritesAt(d, events, b, 0) {
      FirstIsTheWrite(d, events, b);
      i := 0;
    } else {
      var j := TheOneWrite(After(d, events[0]), events[1..], b);
      i := j + 1;
      WritesLater(d, events, b, i);
      forall k: nat | WritesAt(d, events, b, k) ensures k == i {
        if k > 0 {
          WritesLater(d, events, b, k);
        }
      }
    }
  }

  /**
   An effecting record found in a process that swept at start was written by exactly one
   `markEffecting` of this run, and was granted exactly when that call did not report a failure.
   */
  lemma EffectingIsLive(d: Disk, events: seq<Event>, b: Binding) returns (i: nat)
    requires ValidDisk(d) && !IsEffecting(d, b) && IsEffecting(Run(d, events), b)
    ensures IsTheWrite(d, events, b, i)
    ensures EffectsGranted(d, events, b) + EffectsUnsure(d, events, b) == 1
  {
    EffectingWasWritten(d, events, b);
    AtMostOneEffect(d, events, b);
    i := TheOneWrite(d, events, b);
  }

  /** The sweep over a listing of bindings, one rewrite at a time. */
  function SweepEvents(listing: seq<Binding>, now: Binding -> Time): seq<Event> {
    seq(|listing|, i requires 0 <= i < |listing| => RecoverRecord(listing[i], now(listing[i])))
  }

  /** Restart recovery is a run of single rewrites that ends with no effecting record. */
  lemma {:induction false} SweepRecovers(d: Disk, listing: seq<Binding>, now: Binding -> Time, b: Binding)
    ensures var e := Run(d, SweepEvents(listing, now));
            && (b in e.records <==> b in d.records)
            && (b in d.records ==>
                  e.records[b] == if b in listing && d.records[b].state == Effecting then InterruptedAs(d.records[b], now(b)) else d.records[b])
    decreases |listing|
  {
    if listing != [] {
      var events := SweepEvents(listing, now);
      assert events[1..] == SweepEvents(listing[1..], now);
      assert listing == [listing[0]] + listing[1..];
      SweepRecovers(After(d, events[0]), listing[1..], now, b);
    }
  }

  /** Sweeping every binding in any order is `recoverInterrupted()`. */
  lemma SweepIsRecovered(d: Disk, listing: seq<Binding>, managers: set<string>, now: Binding -> Time)
    requires forall b :: b in d.records ==> (b in listing <==> b.manager in managers)
    ensures Run(d, SweepEvents(listing, now)).records == Recovered(d, managers, now).records
  {
    forall b ensures b in Run(d, SweepEvents(listing, now)).records <==> b in d.records {
      SweepRecovers(d, listing, now, b);
    }
    forall b | b in d.records ensures Run(d, SweepEvents(listing, now)).records[b] == Recovered(d, managers, now).records[b] {
      SweepRecovers(d, listing, now, b);
    }
  }

  /** `begin` answers that an effect of this binding is under way. */
  predicate RepliesEffecting(d: Disk, input: BeginInput) {
    var r := BeginStep(d, input, 0, 0).1;
    r.Ok? && r.value.Replay? && r.value.intent.state == Effecting
  }

  lemma ReplyReadsRecord(d: Disk, input: BeginInput)
    requires RepliesEffecting(d, input)
    ensures IsEffecting(d, Binding(input.manager, input.key))
  {
  }

  lemma SweptHasNoEffecting(d: Disk, now: Binding -> Time, b: Binding)
    requires ValidDisk(d)
    ensures !IsEffecting(Recovered(d, d.managers, now), b)
  {
    if b in d.records {
      assert ValidEntry(d, b);
    }
  }

  lemma RecoveredIsValid(d: Disk, now: Binding -> Time)
    requires ValidDisk(d)
    ensures ValidDisk(Recovered(d, d.managers, now))
  {
    var e := Recovered(d, d.managers, now);
    forall b | b in e.records ensures ValidEntry(e, b) {
      assert ValidEntry(d, b);
    }
  }

  /**
   After a full restart sweep, whatever follows: a `begin` that answers `replay` with an effecting
   record answers for an effect written since the sweep, never for an interrupted one; and that
   effect was granted exactly when the `markEffecting` that wrote it did not report a failure.
   */
  lemma ReplayedEffectIsLive(d: Disk, now: Binding -> Time, events: seq<Event>, input: BeginInput) returns (i: nat)
    requires ValidDisk(d)
    requires RepliesEffecting(Run(Recovered(d, d.managers, now), events), input)
    ensures var b, r := Binding(input.manager, input.key), Recovered(d, d.managers, now);
            IsTheWrite(r, events, b, i) && EffectsGranted(r, events, b) + EffectsUnsure(r, events, b) == 1
  {
    var b := Binding(input.manager, input.key);
    var r := Recovered(d, d.managers, now);
    RecoveredIsValid(d, now);
    SweptHasNoEffecting(d, now, b);
    ReplyReadsRecord(Run(r, events), input);
    i := EffectingIsLive(r, events, b);
  }

  /** The input on which it was not: the write lands, the caller is told of a failure, and a retry is answered `replay`. */
  lemma UnsureEffectReplays(d: Disk, input: BeginInput, now: Time)
    requires IsManagerKey(input.manager) && IsIdempotencyKey(input.key) && IsIdentifier(input.projectRoot)
    requires Binding(input.manager, input.key) !in d.records
    ensures var b, events := Binding(input.manager, input.key), [Begin(input, now, now), MarkUnsure(Ref(input.manager, input.key, d.minted), now)];
            RepliesEffecting(Run(d, events), input) && EffectsGranted(d, events, b) == 0 && EffectsUnsure(d, events, b) == 1
  {
    var e, f := Begin(input, now, now), MarkUnsure(Ref(input.manager, input.key, d.minted), now);
    var d1 := After(d, e);
    assert [e, f][1..] == [f] && [f][1..] == [];
    assert WritesEffect(d1, f, Binding(input.manager, input.key));
    assert Run(d, [e, f]) == Run(d1, [f]) == Run(After(d1, f), []);
    var b := Binding(input.manager, input.key);
    assert EffectsGranted(d, [e, f], b) == EffectsGranted(d1, [f], b) == EffectsGranted(After(d1, f), [], b);
    assert EffectsUnsure(d, [e, f], b) == EffectsUnsure(d1, [f], b) == 1 + EffectsUnsure(After(d1, f), [], b);
  }

  // ---- The field checks, by their alphabets -----------------------------------------------------

  const HEX := "0123456789abcdef"
  const SMALL := "abcdefghijklmnopqrstuvwxyz"
  const CAPITAL := "ABCDEFGHIJKLMNOPQRSTUVWXYZ"
  const DIGIT := "0123456789"

  predicate Spelled(s: string, alphabet: string) {
    forall i :: 0 <= i < |s| ==> s[i] in alphabet
  }

  lemma HexIs(c: char)
    ensures c in HEX <==> '0' <= c <= '9' || 'a' <= c <= 'f'
  {
    if '0' <= c <= '9' {
      assert HEX[c as int - '0' as int] == c;
    } else if 'a' <= c <= 'f' {
      assert HEX[c as int - 'a' as int + 10] == c;
    }
  }

  lemma SmallIs(c: char)
    ensures c in SMALL <==> 'a' <= c <= 'z'
  {
    if 'a' <= c <= 'z' {
      assert SMALL[c as int - 'a' as int] == c;
    }
  }

  lemma CapitalIs(c: char)
    ensures c in CAPITAL <==> 'A' <= c <= 'Z'
  {
    if 'A' <= c <= 'Z' {
      assert CAPITAL[c as int - 'A' as int] == c;
    }
  }

  lemma DigitIs(c: char)
    ensures c in DIGIT <==> '0' <= c <= '9'
  {
    if '0' <= c <= '9' {
      assert DIGIT[c as int - '0' as int] == c;
    }
  }

  /** A manager key is the small hexadecimal text of a SHA-256. */
  lemma ManagerKeyIff(s: string)
    ensures IsManagerKey(s) <==> |s| == 64 && Spelled(s, HEX)
  {
    forall i | 0 <= i < |s| ensures s[i] in HEX <==> '0' <= s[i] <= '9' || 'a' <= s[i] <= 'f' {
      HexIs(s[i]);
    }
    assert forall i :: 0 <= i < |s| ==> s[i] in s;
  }

  /** An idempotency key has 1 to 128 letters, digits and `.`, `_`, `:`, `-`. */
  lemma IdempotencyKeyIff(s: string)
    ensures IsIdempotencyKey(s) <==> 1 <= |s| <= 128 && forall i :: 0 <= i < |s| ==> IsKeyLetter(s[i])
  {
    forall c: char ensures IsKeyChar(c) <==> IsKeyLetter(c) {
      CapitalIs(c);
      SmallIs(c);
      DigitIs(c);
    }
  }

  predicate IsKeyLetter(c: char) {
    c in CAPITAL || c in SMALL || c in DIGIT || c in "._:-"
  }

  /** A failure code is 1 to 64 long, begins with a capital letter and goes on with those, digits and `_`. */
  lemma FailureCodeIff(s: string)
    ensures IsFailureCode(s) <==>
            1 <= |s| <= 64 && s[0] in CAPITAL && forall i :: 1 <= i < |s| ==> s[i] in CAPITAL || s[i] in DIGIT || s[i] == '_'
  {
    forall i | 0 <= i < |s| ensures (s[i] in CAPITAL <==> 'A' <= s[i] <= 'Z') && (s[i] in DIGIT <==> '0' <= s[i] <= '9') {
      CapitalIs(s[i]);
      DigitIs(s[i]);
    }
    if 1 <= |s| {
      assert forall i :: 1 <= i < |s| ==> s[i] == s[1..][i - 1] && s[1..][i - 1] in s[1..];
    }
  }

  /** A failure phase the same, with small letters. */
  lemma FailurePhaseIff(s: string)
    ensures IsFailurePhase(s) <==>
            1 <= |s| <= 64 && s[0] in SMALL && forall i :: 1 <= i < |s| ==> s[i] in SMALL || s[i] in DIGIT || s[i] == '_'
  {
    forall i | 0 <= i < |s| ensures (s[i] in SMALL <==> 'a' <= s[i] <= 'z') && (s[i] in DIGIT <==> '0' <= s[i] <= '9') {
      SmallIs(s[i]);
      DigitIs(s[i]);
    }
    if 1 <= |s| {
      assert forall i :: 1 <= i < |s| ==> s[i] == s[1..][i - 1] && s[1..][i - 1] in s[1..];
    }
  }

  /** Not empty, and on one line. */
  predicate IsOneLine(s: string) {
    |s| > 0 && forall i :: 0 <= i < |s| ==> s[i] != '\0' && s[i] != '\r' && s[i] != '\n'
  }

  predicate IsShortLine(s: string) {
    IsOneLine(s) && |s| < 4097
  }

  /** What an observation of a child may say: a name, a run if any, and evidence within its bounds if any. */
  lemma ChildIff(c: Child)
    ensures IsChild(c) <==>
            && IsOneLine(c.name)
            && (c.runId == None || IsOneLine(c.runId.value))
            && (c.evidence == None
                || var e := c.evidence.value;
                   && |e.at| < 33 && 1 <= |e.reason| < 65 && (forall i :: 0 <= i < |e.reason| ==> e.reason[i] in SMALL || e.reason[i] == '_')
                   && (e.terminalId == None || (IsOneLine(e.terminalId.value) && |e.terminalId.value| < 257))
                   && (e.session == None
                       || (IsShortLine(e.session.value.source) && IsShortLine(e.session.value.agent)
                           && IsShortLine(e.session.value.kind) && IsShortLine(e.session.value.value))))
  {
    IdentifiersAreLines();
    if c.evidence.Some? {
      var reason := c.evidence.value.reason;
      forall i | 0 <= i < |reason| ensures reason[i] in reason && (reason[i] in SMALL <==> 'a' <= reason[i] <= 'z') {
        SmallIs(reason[i]);
      }
    }
  }

  lemma IdentifiersAreLines()
    ensures forall s: string :: IsIdentifier(s) <==> IsOneLine(s)
  {
    forall s: string ensures IsIdentifier(s) <==> IsOneLine(s) {
      assert IsOneLine(s) ==> IsIdentifier(s);
      if IsIdentifier(s) {
        forall i | 0 <= i < |s| ensures s[i] != '\0' && s[i] != '\r' && s[i] != '\n' {
          assert s[i] in s;
        }
      }
    }
  }

  // ---- What `begin` answers -----------------------------------------------------------------

  predicate IsWellFormed(input: BeginInput) {
    IsManagerKey(input.manager) && IsIdempotencyKey(input.key) && IsIdentifier(input.projectRoot)
  }

  /** Two Tasks have one digest exactly when they are equal with omitted `constraints` read as none. */
  lemma SameDigestIff(t: C.Task, u: C.Task)
    ensures C.TaskText(t) == C.TaskText(u) <==> C.Normalized(t) == C.Normalized(u)
  {
    C.DeclaredOrderPresents(t);
    C.DeclaredOrderPresents(u);
    C.TaskTextDecidesTask(C.Obj(C.TaskEntries(t)), C.Obj(C.TaskEntries(u)), t, u);
  }

  /** The first `begin` of a binding makes its record, and is to launch it. */
  lemma FirstBeginRecords(d: Disk, input: BeginInput, at: Time, up: Time)
    requires IsWellFormed(input) && Binding(input.manager, input.key) !in d.records
    ensures var (t, reply), b := BeginStep(d, input, at, up), Binding(input.manager, input.key);
            && t.records.Keys == d.records.Keys + {b} && (forall c :: c in d.records ==> t.records[c] == d.records[c])
            && t.managers == d.managers + {input.manager} && t.minted == d.minted + 1
            && reply == Ok(Launch(t.records[b], false))
            && var r := t.records[b];
               && r.manager == input.manager && r.key == input.key && r.projectRoot == input.projectRoot && r.launchId == d.minted
               && r.taskDigest == C.TaskText(input.task) && r.state == Recorded && r.recordedAt == at && r.updatedAt == up
               && r.children == [] && r.effectCertainty == None && r.resolution == None && !r.reconciled
               && r.failureCode == None && r.failurePhase == None
  {
  }

  /** A malformed `begin` is refused by its first malformed field, and changes nothing. */
  lemma MalformedBeginIsRefused(d: Disk, input: BeginInput, at: Time, up: Time)
    requires !IsWellFormed(input)
    ensures var (t, reply) := BeginStep(d, input, at, up);
            && t == d
            && reply == Err(RequestInvalid(if !IsManagerKey(input.manager) then "managerSessionKey"
                                           else if !IsIdempotencyKey(input.key) then "idempotencyKey" else "projectRoot"))
  {
  }

  /** How a record that answers for the same Task and root is answered. */
  predicate AnswersFor(r: Intent, reply: BeginResult) {
    && reply.intent == r
    && (reply.Launch? <==> r.state == Recorded) && (reply.Launch? ==> reply.resumed)
    && (reply.Unsettled? <==> r.state == Unresolved)
    && (reply.Replay? <==> r.state == Effecting || r.state == Completed || r.state == Failed)
  }

  /**
   Over any run from the `begin` that made a record: a later one for the same binding is a conflict of
   Tasks exactly when its Task differs from the one recorded, an omitted `constraints` read as none;
   else a conflict of roots exactly when its root differs; else it is answered with the record, by the
   state it has come to. It changes no record.
   */
  lemma LaterBeginAnswers(d: Disk, first: BeginInput, at: Time, up: Time, events: seq<Event>, again: BeginInput, now: Time)
    requires ValidDisk(d) && IsWellFormed(first) && IsWellFormed(again)
    requires again.manager == first.manager && again.key == first.key && Binding(first.manager, first.key) !in d.records
    ensures var t, b := Run(After(d, Begin(first, at, up)), events), Binding(first.manager, first.key);
            var (u, reply) := BeginStep(t, again, now, now);
            && b in t.records && u.records == t.records && u.minted == t.minted
            && (reply == Err(KeyConflict("taskDigest")) <==> C.Normalized(again.task) != C.Normalized(first.task))
            && (reply == Err(KeyConflict("projectRoot")) <==>
                  C.Normalized(again.task) == C.Normalized(first.task) && again.projectRoot != first.projectRoot)
            && (reply.Ok? <==> C.Normalized(again.task) == C.Normalized(first.task) && again.projectRoot == first.projectRoot)
            && (reply.Ok? ==> AnswersFor(t.records[b], reply.value))
  {
    var made, b := After(d, Begin(first, at, up)), Binding(first.manager, first.key);
    FirstBeginRecords(d, first, at, up);
    StepPreserves(d, Begin(first, at, up));
    RunPreserves(made, events);
    assert Evolves(made.records[b], Run(made, events).records[b]);
    SameDigestIff(again.task, first.task);
  }

  // ---- What the transitions write -------------------------------------------------------------

  /** The record a transition may move: there, of this launch, and in an allowed state. */
  predicate MayMove(d: Disk, ref: Ref, allowed: set<Phase>) {
    var b := Binding(ref.manager, ref.key);
    && IsManagerKey(ref.manager) && ref.manager in d.managers && b in d.records
    && d.records[b].launchId == ref.launchId && d.records[b].state in allowed
  }

  /** The children are those before with the added observations, name by name. */
  ghost predicate Gathers(before: seq<Child>, added: seq<Child>, after: seq<Child>) {
    DistinctNames(before) ==> Summarizes(after, before + added) && NamesExtend(before, after)
  }

  lemma MergedGathers(before: seq<Child>, added: seq<Child>)
    ensures Gathers(before, added, Merged(before, added))
  {
    if DistinctNames(before) {
      SelfSummary(before);
      MergedSummarizes(before, before, added);
    }
  }

  /** Only this record changes, to this one, which is the answer; or nothing does, and the answer is an error. */
  ghost predicate Moves(d: Disk, t: Disk, reply: Result<Intent>, ref: Ref, s: Intent) {
    t == d.(records := d.records[Binding(ref.manager, ref.key) := s]) && reply == Ok(s)
  }

  ghost predicate Stays(d: Disk, t: Disk, reply: Result<Intent>) {
    t == d && reply.Err?
  }

  lemma MarkEffectingWrites(d: Disk, ref: Ref, now: Time)
    ensures var (t, reply) := MarkEffectingStep(d, ref, now);
            if MayMove(d, ref, {Recorded}) then
              Moves(d, t, reply, ref, d.records[Binding(ref.manager, ref.key)].(state := Effecting, updatedAt := now))
            else Stays(d, t, reply)
  {
  }

  lemma RecordChildrenWrites(d: Disk, ref: Ref, children: seq<Child>, now: Time)
    ensures var (t, reply) := RecordChildrenStep(d, ref, children, now);
            if MayMove(d, ref, {Effecting}) && AreChildren(children) then
              && reply.Ok? && Gathers(d.records[Binding(ref.manager, ref.key)].children, children, reply.value.children)
              && Moves(d, t, reply, ref, d.records[Binding(ref.manager, ref.key)].(children := reply.value.children, updatedAt := now))
            else Stays(d, t, reply)
  {
    if MayMove(d, ref, {Effecting}) {
      MergedGathers(d.records[Binding(ref.manager, ref.key)].children, children);
    }
  }

  lemma CompleteWrites(d: Disk, ref: Ref, children: seq<Child>, now: Time)
    ensures var (t, reply) := CompleteStep(d, ref, children, now);
            if MayMove(d, ref, {Effecting}) && AreChildren(children) then
              && reply.Ok? && Gathers(d.records[Binding(ref.manager, ref.key)].children, children, reply.value.children)
              && Moves(d, t, reply, ref,
                       d.records[Binding(ref.manager, ref.key)].(state := Completed, children := reply.value.children, updatedAt := now))
            else Stays(d, t, reply)
  {
    if MayMove(d, ref, {Effecting}) {
      MergedGathers(d.records[Binding(ref.manager, ref.key)].children, children);
    }
  }

  predicate IsOutcome(o: Outcome) {
    && AreChildren(o.children) && (o.code.Some? ==> IsFailureCode(o.code.value)) && (o.phase.Some? ==> IsFailurePhase(o.phase.value))
  }

  /** Failed exactly when the effect is certainly absent and no child is known, and else unresolved as uncertain; given codes replace old ones. */
  lemma FailWrites(d: Disk, ref: Ref, o: Outcome, now: Time)
    ensures var (t, reply), r := FailStep(d, ref, o, now), Binding(ref.manager, ref.key);
            if MayMove(d, ref, {Recorded, Effecting}) && IsOutcome(o) then
              && reply.Ok? && Gathers(d.records[r].children, o.children, reply.value.children)
              && var failed := o.certainty == Absent && d.records[r].children + o.children == [];
                 Moves(d, t, reply, ref, d.records[r].(
                   state := if failed then Failed else Unresolved,
                   resolution := if failed then d.records[r].resolution else Some(EffectUncertain),
                   children := reply.value.children, effectCertainty := Some(o.certainty),
                   failureCode := if o.code == None then d.records[r].failureCode else o.code,
                   failurePhase := if o.phase == None then d.records[r].failurePhase else o.phase,
                   updatedAt := now))
            else Stays(d, t, reply)
  {
    if MayMove(d, ref, {Recorded, Effecting}) {
      MergedGathers(d.records[Binding(ref.manager, ref.key)].children, o.children);
      MergedIsEmptyIff(d.records[Binding(ref.manager, ref.key)].children, o.children);
    }
  }

  lemma {:induction false} MergedIsEmptyIff(before: seq<Child>, added: seq<Child>)
    ensures Merged(before, added) == [] <==> before + added == []
  {
    if added != [] {
      MergedIsEmptyIff(before, added[..|added| - 1]);
    }
  }

  predicate IsDisposed(c: Child) {
    c.disposition.Some?
  }

  /** Every child is bound or lost, and there is one. */
  predicate AllAccounted(cs: seq<Child>) {
    cs != [] && forall c :: c in cs ==> c.disposition in {Some(Bound), Some(IdentityLost)}
  }

  lemma ReconcileWrites(d: Disk, ref: Ref, dispositions: seq<Child>, now: Time)
    ensures var (t, reply), r := ReconcileStep(d, ref, dispositions, now), Binding(ref.manager, ref.key);
            if MayMove(d, ref, {Unresolved}) && AreChildren(dispositions) && forall c :: c in dispositions ==> IsDisposed(c) then
              && reply.Ok? && Gathers(d.records[r].children, dispositions, reply.value.children)
              && var done := AllAccounted(reply.value.children);
                 Moves(d, t, reply, ref, d.records[r].(
                   state := if done then Completed else Unresolved, reconciled := done || d.records[r].reconciled,
                   children := reply.value.children, updatedAt := now))
            else Stays(d, t, reply)
  {
    if MayMove(d, ref, {Unresolved}) {
      MergedGathers(d.records[Binding(ref.manager, ref.key)].children, dispositions);
    }
    if i :| 0 <= i < |dispositions| && dispositions[i].disposition.None? {
      assert dispositions[i] in dispositions && !IsDisposed(dispositions[i]);
    }
  }

  /** An interrupted record: unresolved as interrupted, of unknown certainty unless one was noted; any other is left alone. */
  lemma SweepWrites(d: Disk, b: Binding, now: Time)
    ensures var t := RecoverRecordStep(d, b, now);
            if b in d.records && d.records[b].state == Effecting then
              t == d.(records := d.records[b := d.records[b].(
                state := Unresolved, resolution := Some(Interrupted), updatedAt := now,
                effectCertainty := if d.records[b].effectCertainty == None then Some(Unknown) else d.records[b].effectCertainty)])
            else t == d
  {
  }

  // ---- The store object -------------------------------------------------------------------

  ghost predicate IsSweptAt(before: map<Binding, Intent>, b: Binding, done: bool, now: Binding -> Time, after: Intent)
    requires b in before
  {
    after == if done && before[b].state == Effecting then InterruptedAs(before[b], now(b)) else before[b]
  }

  lemma SweptElementwise(before: map<Binding, Intent>, done: set<Binding>, now: Binding -> Time, after: map<Binding, Intent>)
    requires after.Keys == before.Keys
    requires forall b :: b in before ==> IsSweptAt(before, b, b in done, now, after[b])
    ensures after == Swept(before, done, now)
  {
  }

  class IntentStore {
    var records: map<Binding, Intent>
    var managers: set<string>
    var minted: nat

    ghost function Contents(): Disk
      reads this
    {
      Disk(records, managers, minted)
    }

    constructor ()
      ensures Contents() == Disk(map[], {}, 0)
    {
      records, managers, minted := map[], {}, 0;
    }

    method Begin(input: BeginInput, recordedAt: Time, updatedAt: Time) returns (r: Result<BeginResult>)
      modifies this
      ensures (Contents(), r) == BeginStep(old(Contents()), input, recordedAt, updatedAt)
    {
      if !IsManagerKey(input.manager) { return Err(RequestInvalid("managerSessionKey")); }
      if !IsIdempotencyKey(input.key) { return Err(RequestInvalid("idempotencyKey")); }
      if !IsIdentifier(input.projectRoot) { return Err(RequestInvalid("projectRoot")); }
      var digest := C.TaskText(input.task);
      managers := managers + {input.manager};
      var b := Binding(input.manager, input.key);
      if b !in records {
        var intent := Fresh(input, minted, recordedAt, updatedAt);
        minted := minted + 1;
        records := records[b := intent];
        return Ok(Launch(intent, false));
      }
      var existing := records[b];
      if existing.taskDigest != digest { return Err(KeyConflict("taskDigest")); }
      if existing.projectRoot != input.projectRoot { return Err(KeyConflict("projectRoot")); }
      if existing.state == Recorded { return Ok(Launch(existing, true)); }
      if existing.state == Unresolved { return Ok(Unsettled(existing)); }
      return Ok(Replay(existing));
    }

    method Transition(ref: Ref, allowed: set<Phase>, next: Intent -> Intent) returns (r: Result<Intent>)
      modifies this
      ensures (Contents(), r) == TransitionStep(old(Contents()), ref, allowed, next)
    {
      if !IsManagerKey(ref.manager) { return Err(RequestInvalid("managerSessionKey")); }
      var b := Binding(ref.manager, ref.key);
      if ref.manager !in managers || b !in records { return Err(StateConflict(None)); }
      var current := records[b];
      if current.launchId != ref.launchId || current.state !in allowed { return Err(StateConflict(Some(current.state))); }
      var written := next(current);
      records := records[b := written];
      return Ok(written);
    }

    method MarkEffecting(ref: Ref, now: Time) returns (r: Result<Intent>)
      modifies this
      ensures (Contents(), r) == MarkEffectingStep(old(Contents()), ref, now)
    {
      r := Transition(ref, {Recorded}, c => Effected(c, now));
    }

    method RecordChildren(ref: Ref, children: seq<Child>, now: Time) returns (r: Result<Intent>)
      modifies this
      ensures (Contents(), r) == RecordChildrenStep(old(Contents()), ref, children, now)
    {
      if !AreChildren(children) { return Err(RequestInvalid("children")); }
      r := Transition(ref, {Effecting}, c => Observed(c, children, now));
    }

    method Complete(ref: Ref, children: seq<Child>, now: Time) returns (r: Result<Intent>)
      modifies this
      ensures (Contents(), r) == CompleteStep(old(Contents()), ref, children, now)
    {
      if !AreChildren(children) { return Err(RequestInvalid("children")); }
      r := Transition(ref, {Effecting}, c => Finished(c, children, now));
    }

    method Fail(ref: Ref, outcome: Outcome, now: Time) returns (r: Result<Intent>)
      modifies this
      ensures (Contents(), r) == FailStep(old(Contents()), ref, outcome, now)
    {
      if outcome.code.Some? && !IsFailureCode(outcome.code.value) { return Err(RequestInvalid("failureCode")); }
      if outcome.phase.Some? && !IsFailurePhase(outcome.phase.value) { return Err(RequestInvalid("failurePhase")); }
      if !AreChildren(outcome.children) { return Err(RequestInvalid("children")); }
      r := Transition(ref, {Recorded, Effecting}, c => FailedAs(c, outcome, now));
    }

    method Reconcile(ref: Ref, dispositions: seq<Child>, now: Time) returns (r: Result<Intent>)
      modifies this
      ensures (Contents(), r) == ReconcileStep(old(Contents()), ref, dispositions, now)
    {
      if !AreChildren(dispositions) { return Err(RequestInvalid("dispositions")); }
      var n := 0;
      while n < |dispositions|
        invariant 0 <= n <= |dispositions|
        invariant forall i :: 0 <= i < n ==> dispositions[i].disposition.Some?
        invariant Contents() == old(Contents())
      {
        if dispositions[n].disposition.None? { return Err(RequestInvalid("dispositions")); }
        n := n + 1;
      }
      r := Transition(ref, {Unresolved}, c => Reconciled(c, dispositions, now));
    }

    /** One flock section of the restart sweep: every effecting record of one manager. */
    method RecoverManager(manager: string, now: Binding -> Time) returns (recovered: set<Binding>)
      modifies this
      ensures Contents() == Recovered(old(Contents()), {manager}, now)
      ensures recovered == EffectingIn(old(records), BindingsOf(old(records), {manager}))
    {
      ghost var before := records;
      var listing := set b | b in records && b.manager == manager;
      var left := listing;
      recovered := {};
      while left != {}
        invariant managers == old(managers) && minted == old(minted)
        invariant left <= listing && records.Keys == before.Keys
        invariant forall b :: b in before ==> IsSweptAt(before, b, b in listing && b !in left, now, records[b])
        invariant forall b :: b in recovered <==> b in listing && b !in left && before[b].state == Effecting
        decreases |left|
      {
        var b :| b in left;
        left := left - {b};
        if records[b].state == Effecting {
          records := records[b := InterruptedAs(records[b], now(b))];
          recovered := recovered + {b};
        }
      }
      SweptElementwise(before, listing, now, records);
      assert listing == BindingsOf(before, {manager});
    }

    /** The restart sweep: one manager, or every manager directory present. */
    method RecoverInterrupted(only: Option<string>, now: Binding -> Time) returns (r: Result<set<Binding>>)
      requires ValidDisk(Contents())
      modifies this
      ensures only.Some? && !IsManagerKey(only.value) ==>
                r == Err(RequestInvalid("managerSessionKey")) && Contents() == old(Contents())
      ensures (only.Some? ==> IsManagerKey(only.value)) ==>
                var swept := if only.Some? then {only.value} else old(managers);
                && Contents() == Recovered(old(Contents()), swept, now)
                && r == Ok(EffectingIn(old(records), BindingsOf(old(records), swept)))
    {
      if only.Some? && !IsManagerKey(only.value) { return Err(RequestInvalid("managerSessionKey")); }
      var all := if only.Some? then {only.value} else managers;
      ghost var before := records;
      ghost var done: set<string> := {};
      var left := all;
      var recovered := {};
      while left != {}
        invariant managers == old(managers) && minted == old(minted)
        invariant done + left == all && done !! left
        invariant SweptSoFar(before, done, now, records, recovered)
        decreases |left|
      {
        var m :| m in left;
        left := left - {m};
        if m in managers {
          ghost var mid := records;
          var more := RecoverManager(m, now);
          SweptOneMore(before, mid, records, done, m, now, recovered, more);
          recovered := recovered + more;
        } else {
          UnknownManagerHasNone(old(Contents()), m);
          NoneToSweep(before, records, done, m, now, recovered);
        }
        done := done + {m};
      }
      assert done == all;
      SweptToTheEnd(before, all, now, records, recovered);
      return Ok(recovered);
    }
  }

  /** The records and the recovered list once these managers are swept. */
  ghost predicate SweptSoFar(before: map<Binding, Intent>, done: set<string>, now: Binding -> Time, records: map<Binding, Intent>, recovered: set<Binding>) {
    && records.Keys == before.Keys
    && (forall b :: b in before ==> IsSweptAt(before, b, b.manager in done, now, records[b]))
    && (forall b :: b in recovered <==> b in before && b.manager in done && before[b].state == Effecting)
  }

  lemma SweptToTheEnd(before: map<Binding, Intent>, all: set<string>, now: Binding -> Time, records: map<Binding, Intent>, recovered: set<Binding>)
    requires SweptSoFar(before, all, now, records, recovered)
    ensures records == Swept(before, BindingsOf(before, all), now)
    ensures recovered == EffectingIn(before, BindingsOf(before, all))
  {
    SweptElementwise(before, BindingsOf(before, all), now, records);
  }

  lemma SweptOneMore(before: map<Binding, Intent>, mid: map<Binding, Intent>, after: map<Binding, Intent>, done: set<string>, m: string,
                     now: Binding -> Time, recovered: set<Binding>, more: set<Binding>)
    requires SweptSoFar(before, done, now, mid, recovered) && m !in done
    requires after == Swept(mid, BindingsOf(mid, {m}), now) && more == EffectingIn(mid, BindingsOf(mid, {m}))
    ensures SweptSoFar(before, done + {m}, now, after, recovered + more)
  {
    forall b | b in before ensures IsSweptAt(before, b, b.manager in done + {m}, now, after[b]) {
      assert IsSweptAt(before, b, b.manager in done, now, mid[b]);
    }
    forall b ensures b in recovered + more <==> b in before && b.manager in done + {m} && before[b].state == Effecting {
      assert b in before ==> IsSweptAt(before, b, b.manager in done, now, mid[b]);
    }
  }

  lemma NoneToSweep(before: map<Binding, Intent>, records: map<Binding, Intent>, done: set<string>, m: string, now: Binding -> Time, recovered: set<Binding>)
    requires SweptSoFar(before, done, now, records, recovered) && forall b :: b in before ==> b.manager != m
    ensures SweptSoFar(before, done + {m}, now, records, recovered)
  {
    forall b | b in before ensures IsSweptAt(before, b, b.manager in done + {m}, now, records[b]) {
      assert IsSweptAt(before, b, b.manager in done, now, records[b]);
    }
  }

  lemma UnknownManagerHasNone(d: Disk, m: string)
    requires ValidDisk(d) && m !in d.managers
    ensures forall b :: b in d.records ==> b.manager != m
  {
    forall b | b in d.records ensures b.manager != m {
      assert ValidEntry(d, b);
    }
  }
}
