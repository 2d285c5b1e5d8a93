/**
 The managed-run completion gate: any number of hosts and bindings, over one sidecar record.

 Every change of the sidecar is one section under its lock. `Validate` is two steps, the locked
 section and what runs once the lock is released, since other steps can come between. `issued` and
 `contents` are history: the versions for which a repair token was handed out, and the accepted
 contents. A content is known by its digest.
 */
module Gate {
  import opened Chains
  import opened Options

  const MAX_REPAIR_ATTEMPTS := 8

  datatype Status = Done | Blocked | Cancelled | Failed

  datatype Lifecycle = AwaitingHandoff | HandedOff | WasCancelled | HasFailed | RecoveryPending

  datatype Sidecar = Sidecar(sha256: Option<string>, bytes: nat, version: nat, status: Option<Status>,
                             attempts: nat, fence: Option<nat>, lifecycle: Lifecycle, detail: Option<string>)

  const ALLOCATED := Sidecar(None, 0, 0, None, 0, None, AwaitingHandoff, None)

  /** An update of the sidecar: it lands, it lands but reports an error, or it never happens. */
  datatype Write = Landed | LandedUnsure | NotWritten

  function Updated(before: Sidecar, after: Sidecar, write: Write): Sidecar {
    if write.NotWritten? then before else after
  }

  /** What reading the artifact gives: its content, or the verdict that its refusal maps to. */
  datatype Reading = Content(sha256: string, bytes: nat, status: Status) | Refused(verdict: Verdict)

  datatype Verdict = Accepted | Missing | Invalid | Untrusted | Oversized | Stale | Unavailable

  datatype Artifact = Artifact(status: Status, sha256: string, bytes: nat, version: nat)

  datatype Validation = Validation(state: Verdict, artifact: Option<Artifact>)

  /** A locked validation whose second half is still to come. `novel` is history: the content was new to the sidecar. */
  datatype InFlight = InFlight(stale: bool, novel: bool, content: Artifact, seen: Sidecar)

  datatype Mirror = Mirror(accepted: Option<(string, nat, nat, Option<Status>)>, lifecycle: Lifecycle, attempts: nat, fenceVersion: Option<nat>)

  datatype Host = Host(cycleOpen: bool, mirror: Mirror, inFlight: seq<InFlight>, last: Option<Verdict>)

  datatype World = World(side: Sidecar, hosts: seq<Host>, issued: seq<nat>, contents: seq<string>)

  const START := World(ALLOCATED, [], [], [])

  function MirrorOf(s: Sidecar): Mirror {
    Mirror(if s.sha256.None? then None else Some((s.sha256.value, s.bytes, s.version, s.status)), s.lifecycle, s.attempts, s.fence)
  }

  // ---- Steps on the sidecar ----------------------------------------------------------------

  function Present(s: Sidecar, c: Reading): Sidecar
    requires c.Content?
  {
    if s.sha256 == Some(c.sha256) then s
    else s.(sha256 := Some(c.sha256), bytes := c.bytes, version := s.version + 1, status := Some(c.status))
  }

  predicate MayRepair(s: Sidecar) {
    s.attempts < MAX_REPAIR_ATTEMPTS && s.fence != Some(s.version)
  }

  function Fenced(s: Sidecar): Sidecar {
    if MayRepair(s) then s.(attempts := s.attempts + 1, fence := Some(s.version)) else s
  }

  // ---- Steps of a host -------------------------------------------------------------------------

  function Bound(s: Sidecar): Host {
    Host(s.sha256.None?, MirrorOf(s), [], None)
  }

  /** The first half of `validate`. */
  function LockedHost(h: Host, s: Sidecar, reading: Reading, write: Write): Host {
    if reading.Refused? then h.(last := Some(reading.verdict))
    else if !write.Landed? then h.(last := Some(Unavailable))
    else
      var t := Present(s, reading);
      var same := s.sha256 == Some(reading.sha256);
      h.(inFlight := h.inFlight + [InFlight(same && h.cycleOpen, !same, Artifact(reading.status, reading.sha256, reading.bytes, t.version), t)])
  }

  /** The second half. */
  function FinishedHost(h: Host, i: nat): Host
    requires i < |h.inFlight|
  {
    var v := h.inFlight[i];
    var k := h.(mirror := MirrorOf(v.seen), inFlight := h.inFlight[..i] + h.inFlight[i + 1..]);
    if v.stale then k.(last := Some(Stale)) else k.(cycleOpen := false, last := Some(Accepted))
  }

  function Conclusion(v: InFlight): Validation {
    if v.stale then Validation(Stale, None) else Validation(Accepted, Some(v.content))
  }

  // ---- Runs --------------------------------------------------------------------------------------

  const DETAIL_LIMIT := 256

  /** `detail.slice(0, 256)`. */
  function Clipped(detail: Option<string>): Option<string> {
    if detail.Some? && |detail.value| > DETAIL_LIMIT then Some(detail.value[..DETAIL_LIMIT]) else detail
  }

  datatype Event =
    | Bind(write: Write)
    | BeginCycle(host: nat)
    | Lock(host: nat, reading: Reading, write: Write)
    | Finish(host: nat, i: nat)
    | BeginRepair(host: nat, write: Write)
    | Outcome(host: nat, outcome: Lifecycle, detail: Option<string>, write: Write)
    | MarkCycle(host: nat, mark: string, write: Write)
    | Teardown(host: nat, write: Write)

  function WithHost(w: World, i: nat, h: Host): World
    requires i < |w.hosts|
  {
    w.(hosts := w.hosts[i := h])
  }

  function BindStep(w: World, write: Write): World {
    if write.Landed? then w.(hosts := w.hosts + [Bound(w.side)]) else w
  }

  function LockStep(w: World, host: nat, reading: Reading, write: Write): World
    requires host < |w.hosts|
  {
    var w1 := WithHost(w, host, LockedHost(w.hosts[host], w.side, reading, write));
    if reading.Refused? then w1
    else
      var t := Updated(w.side, Present(w.side, reading), write);
      w1.(side := t, contents := if t.version == w.side.version then w.contents else w.contents + [reading.sha256])
  }

  function RepairStep(w: World, host: nat, write: Write): World
    requires host < |w.hosts|
  {
    var t := Updated(w.side, Fenced(w.side), write);
    var w1 := w.(side := t, issued := if write.Landed? && MayRepair(w.side) then w.issued + [w.side.version] else w.issued);
    if write.Landed? then WithHost(w1, host, w.hosts[host].(mirror := MirrorOf(t))) else w1
  }

  function LifecycleStep(w: World, host: nat, after: Sidecar, write: Write): World
    requires host < |w.hosts|
  {
    var w1 := w.(side := Updated(w.side, after, write));
    if write.Landed? then WithHost(w1, host, w.hosts[host].(mirror := MirrorOf(after))) else w1
  }

  function After(w: World, e: Event): World {
    if !e.Bind? && e.host >= |w.hosts| then w
    else
      match e
      case Bind(write) => BindStep(w, write)
      case BeginCycle(host) => WithHost(w, host, w.hosts[host].(cycleOpen := true))
      case Lock(host, reading, write) => LockStep(w, host, reading, write)
      case Finish(host, i) => if i < |w.hosts[host].inFlight| then WithHost(w, host, FinishedHost(w.hosts[host], i)) else w
      case BeginRepair(host, write) => RepairStep(w, host, write)
      case Outcome(host, outcome, detail, write) => LifecycleStep(w, host, w.side.(lifecycle := outcome, detail := Clipped(detail)), write)
      case MarkCycle(host, mark, write) => LifecycleStep(w, host, w.side.(detail := Some(mark)), write)
      case Teardown(host, write) =>
        if w.hosts[host].mirror.lifecycle.AwaitingHandoff? then
          LifecycleStep(w, host, w.side.(lifecycle := RecoveryPending, detail := Some("manager_session_shutdown")), write)
        else w
  }

  function Run(w: World, events: seq<Event>): World
    decreases |events|
  {
    if events == [] then w else After(Run(w, events[..|events| - 1]), events[|events| - 1])
  }

  ghost predicate Rising(versions: seq<nat>) {
    forall i, j :: 0 <= i < j < |versions| ==> versions[i] < versions[j]
  }

  ghost predicate Valid(w: World) {
    && w.side.version == |w.contents|
    && (w.side.sha256 == if w.contents == [] then None else Some(w.contents[|w.contents| - 1]))
    && (forall i :: 0 <= i < |w.contents| - 1 ==> w.contents[i] != w.contents[i + 1])
    && Rising(w.issued)
    && |w.issued| <= w.side.attempts <= MAX_REPAIR_ATTEMPTS
    && (w.side.fence.None? ==> w.issued == [])
    && (w.side.fence.Some? ==> w.side.fence.value <= w.side.version && forall i :: 0 <= i < |w.issued| ==> w.issued[i] <= w.side.fence.value)
  }

  lemma LockPreserves(w: World, host: nat, reading: Reading, write: Write)
    requires Valid(w) && host < |w.hosts|
    ensures Valid(LockStep(w, host, reading, write))
  {
  }

  lemma RepairPreserves(w: World, host: nat, write: Write)
    requires Valid(w) && host < |w.hosts|
    ensures Valid(RepairStep(w, host, write))
  {
    if !write.NotWritten? && MayRepair(w.side) {
      FenceRises(w.issued, w.side.fence, w.side.version);
    }
  }

  lemma FenceRises(issued: seq<nat>, fence: Option<nat>, version: nat)
    requires Rising(issued) && fence != Some(version) && (fence.None? ==> issued == [])
    requires fence.Some? ==> fence.value <= version && forall i :: 0 <= i < |issued| ==> issued[i] <= fence.value
    ensures Rising(issued + [version]) && forall i :: 0 <= i < |issued| ==> issued[i] < version
  {
  }

  lemma LifecyclePreserves(w: World, host: nat, lifecycle: Lifecycle, detail: Option<string>, write: Write)
    requires Valid(w) && host < |w.hosts|
    ensures Valid(LifecycleStep(w, host, w.side.(lifecycle := lifecycle, detail := detail), write))
  {
  }

  lemma StepPreserves(w: World, e: Event)
    requires Valid(w)
    ensures Valid(After(w, e))
  {
    if e.Bind? || e.host < |w.hosts| {
      match e
      case Lock(host, reading, write) => LockPreserves(w, host, reading, write);
      case BeginRepair(host, write) => RepairPreserves(w, host, write);
      case Outcome(host, outcome, detail, write) => LifecyclePreserves(w, host, outcome, Clipped(detail), write);
      case MarkCycle(host, mark, write) => LifecyclePreserves(w, host, w.side.lifecycle, Some(mark), write);
      case Teardown(host, write) => LifecyclePreserves(w, host, RecoveryPending, Some("manager_session_shutdown"), write);
      case _ =>
    }
  }

  /** At most one repair token per artifact version, at most eight in all, over any hosts, restarts and failed writes. */
  lemma {:induction false} RepairsAreBounded(events: seq<Event>)
    ensures var w := Run(START, events); Valid(w) && Rising(w.issued) && |w.issued| <= MAX_REPAIR_ATTEMPTS
    decreases |events|
  {
    if events != [] {
      RepairsAreBounded(events[..|events| - 1]);
      StepPreserves(Run(START, events[..|events| - 1]), events[|events| - 1]);
    }
  }

  /** The version never drops, and rises by one exactly when content other than the last accepted is written. */
  lemma VersionCountsNewContent(w: World, e: Event)
    ensures var t := After(w, e);
            && w.side.version <= t.side.version <= w.side.version + 1
            && (t.side.version > w.side.version <==>
                  e.Lock? && e.host < |w.hosts| && e.reading.Content? && !e.write.NotWritten? && w.side.sha256 != Some(e.reading.sha256))
            && (t.side.version > w.side.version ==> t.side.sha256 == Some(e.reading.sha256) && t.side.status == Some(e.reading.status))
            && (t.side.version == w.side.version ==> t.side.sha256 == w.side.sha256 && t.side.bytes == w.side.bytes && t.side.status == w.side.status)
  {
  }

  // ---- The open cycle ------------------------------------------------------------------------------------

  /** The host's cycle is open and nothing it still has in flight can close it with content it had before. */
  ghost predicate CycleIsOpen(h: Host) {
    h.cycleOpen && forall i :: 0 <= i < |h.inFlight| ==> h.inFlight[i].stale || h.inFlight[i].novel
  }

  /** An open cycle ends only when the host finishes accepting content that was new to the sidecar. */
  lemma OnlyNewContentCloses(w: World, e: Event, host: nat)
    requires host < |w.hosts| && CycleIsOpen(w.hosts[host])
    ensures var h := After(w, e).hosts[host];
            || CycleIsOpen(h)
            || (e.Finish? && e.host == host && e.i < |w.hosts[host].inFlight| && w.hosts[host].inFlight[e.i].novel)
  {
    var h, k := w.hosts[host], After(w, e).hosts[host];
    if e.Finish? && e.host == host && e.i < |h.inFlight| {
      assert forall j :: 0 <= j < |k.inFlight| ==> k.inFlight[j] == h.inFlight[if j < e.i then j else j + 1];
    }
  }

  /** While the cycle is open, presenting the sidecar's own content again is stale. */
  lemma SameContentIsStale(w: World, host: nat, reading: Reading)
    requires host < |w.hosts| && w.hosts[host].cycleOpen && reading.Content? && w.side.sha256 == Some(reading.sha256)
    ensures var t := After(w, Lock(host, reading, Landed));
            && t.side == w.side && |t.hosts[host].inFlight| == |w.hosts[host].inFlight| + 1
            && Conclusion(t.hosts[host].inFlight[|w.hosts[host].inFlight|]).state == Stale
  {
  }

  predicate FinishesFresh(w: World, e: Event, host: nat)
    requires host < |w.hosts|
  {
    e.Finish? && e.host == host && e.i < |w.hosts[host].inFlight| && w.hosts[host].inFlight[e.i].novel
  }

  /** `events[i]` finishes, on this host, the acceptance of new content. */
  ghost predicate Closes(w: World, events: seq<Event>, host: nat, i: nat) {
    i < |events| && host < |Run(w, events[..i]).hosts| && FinishesFresh(Run(w, events[..i]), events[i], host)
  }

  lemma HostsStay(w: World, e: Event)
    ensures |w.hosts| <= |After(w, e).hosts|
  {
  }

  /**
   Whatever other hosts do meanwhile: over a whole run from an open cycle, either the cycle is still
   open, and so all that the host finished was stale, or the host has accepted new content.
   */
  lemma {:induction false} OpenUntilNewContent(w: World, events: seq<Event>, host: nat)
    requires host < |w.hosts| && CycleIsOpen(w.hosts[host])
    ensures host < |Run(w, events).hosts|
    ensures CycleIsOpen(Run(w, events).hosts[host]) || exists i: nat :: Closes(w, events, host, i)
    decreases |events|
  {
    if events != [] {
      var front, e := events[..|events| - 1], events[|events| - 1];
      OpenUntilNewContent(w, front, host);
      var v := Run(w, front);
      HostsStay(v, e);
      if CycleIsOpen(v.hosts[host]) {
        OnlyNewContentCloses(v, e, host);
        if !CycleIsOpen(After(v, e).hosts[host]) {
          assert Closes(w, events, host, |events| - 1);
        }
      } else {
        var i: nat :| Closes(w, front, host, i);
        assert events[..i] == front[..i];
        assert Closes(w, events, host, i);
      }
    }
  }

  predicate FinishesOld(w: World, e: Event, host: nat)
    requires host < |w.hosts|
  {
    && e.Finish? && e.host == host && e.i < |w.hosts[host].inFlight|
    && !w.hosts[host].inFlight[e.i].stale && !w.hosts[host].inFlight[e.i].novel
  }

  /** `events[i]` accepts, on this host, content the sidecar already had, before any new content. */
  ghost predicate AcceptsOld(w: World, events: seq<Event>, host: nat, i: nat) {
    && i < |events| && host < |Run(w, events[..i]).hosts| && FinishesOld(Run(w, events[..i]), events[i], host)
    && forall j: nat :: j < i ==> !Closes(w, events, host, j)
  }

  predicate LosesCycle(w: World, host: nat) {
    host < |w.hosts| && !w.hosts[host].cycleOpen && w.hosts[host].last == Some(Accepted)
  }

  /** Such an acceptance closes the cycle and makes the old content current again. */
  lemma AcceptingOldCloses(w: World, host: nat, i: nat)
    requires host < |w.hosts| && FinishesOld(w, Finish(host, i), host)
    ensures LosesCycle(After(w, Finish(host, i)), host)
  {
  }

  /**
   After `beginCycle`, no run whatever lets the host accept old content before new content, exactly
   when no acceptance of old content was in flight as the cycle began; and one that is accepted so
   closes the cycle.
   */
  lemma BegunCycleHoldsIff(w: World, host: nat)
    requires host < |w.hosts|
    ensures (forall events, i: nat :: !AcceptsOld(After(w, BeginCycle(host)), events, host, i)) <==>
            forall i :: 0 <= i < |w.hosts[host].inFlight| ==> w.hosts[host].inFlight[i].stale || w.hosts[host].inFlight[i].novel
    ensures forall events, i: nat :: AcceptsOld(After(w, BeginCycle(host)), events, host, i) ==>
              LosesCycle(Run(After(w, BeginCycle(host)), events[..i + 1]), host)
  {
    var begun := After(w, BeginCycle(host));
    forall events: seq<Event>, i: nat | AcceptsOld(begun, events, host, i) ensures LosesCycle(Run(begun, events[..i + 1]), host) {
      assert events[..i + 1][..i] == events[..i];
      AcceptingOldCloses(Run(begun, events[..i]), host, events[i].i);
    }
    if CycleIsOpen(begun.hosts[host]) {
      forall events, i: nat ensures !AcceptsOld(begun, events, host, i) {
        if AcceptsOld(begun, events, host, i) {
          OpenBeforeOld(begun, events, host, i);
        }
      }
    } else {
      var i :| 0 <= i < |w.hosts[host].inFlight| && !w.hosts[host].inFlight[i].stale && !w.hosts[host].inFlight[i].novel;
      var events := [Finish(host, i)];
      assert events[..0] == [];
      assert AcceptsOld(begun, events, host, 0);
    }
  }

  lemma OpenBeforeOld(w: World, events: seq<Event>, host: nat, i: nat)
    requires host < |w.hosts| && CycleIsOpen(w.hosts[host])
    ensures !AcceptsOld(w, events, host, i)
  {
    if i < |events| {
      var front := events[..i];
      OpenUntilNewContent(w, front, host);
      forall j: nat | j < i ensures Closes(w, front, host, j) <==> Closes(w, events, host, j) {
        assert front[..j] == events[..j];
      }
    }
  }

  lemma RunAppends(w: World, events: seq<Event>, e: Event)
    ensures Run(w, events + [e]) == After(Run(w, events), e)
  {
    assert (events + [e])[..|events|] == events;
  }

  /**
   Why the condition is needed: a cycle begun while an acceptance is in flight is closed by its second
   half, and the old content then counts as current again.
   */
  lemma CycleLostInFlight()
    ensures var a := Content("a", 1, Done);
            var h := Host(false, MirrorOf(ALLOCATED.(sha256 := Some("a"), bytes := 1, version := 1, status := Some(Done))), [], None);
            var w := World(ALLOCATED.(sha256 := Some("a"), bytes := 1, version := 1, status := Some(Done)), [h], [], ["a"]);
            var t := After(After(After(w, Lock(0, a, Landed)), BeginCycle(0)), Finish(0, 0));
            && !t.hosts[0].cycleOpen && t.hosts[0].last == Some(Accepted)
            && Conclusion(After(t, Lock(0, a, Landed)).hosts[0].inFlight[0]).state == Accepted
  {
  }

  // ---- Teardown -----------------------------------------------------------------------------------

  /** Teardown of a host leaves a settled lifecycle alone exactly when that host has seen it settled. */
  lemma TeardownKeepsOutcomeIff(w: World, host: nat, write: Write)
    requires host < |w.hosts| && !write.NotWritten? && !w.side.lifecycle.AwaitingHandoff? && !w.side.lifecycle.RecoveryPending?
    ensures After(w, Teardown(host, write)).side.lifecycle == w.side.lifecycle <==> !w.hosts[host].mirror.lifecycle.AwaitingHandoff?
    ensures After(w, Teardown(host, write)).side.version == w.side.version && After(w, Teardown(host, write)).side.sha256 == w.side.sha256
  {
  }

  lemma TwoAreBound()
    ensures var w := Run(START, [Bind(Landed), Bind(Landed)]); |w.hosts| == 2 && w.hosts[1].mirror.lifecycle == AwaitingHandoff
  {
    var a := [Bind(Landed)];
    assert Run(START, []) == START;
    assert [] + a == a && a + a == [Bind(Landed), Bind(Landed)];
    RunAppends(START, [], Bind(Landed));
    RunAppends(START, a, Bind(Landed));
  }

  lemma OneSettlesOneTearsDown(w: World)
    requires |w.hosts| == 2 && w.hosts[1].mirror.lifecycle == AwaitingHandoff
    ensures var t := After(w, Outcome(0, HandedOff, None, Landed));
            t.side.lifecycle == HandedOff && After(t, Teardown(1, Landed)).side.lifecycle == RecoveryPending
  {
  }

  /** So with two hosts on one run, the teardown of one can overwrite the outcome that the other recorded. */
  lemma StaleMirrorOverwritesOutcome()
    ensures Run(START, [Bind(Landed), Bind(Landed), Outcome(0, HandedOff, None, Landed)]).side.lifecycle == HandedOff
    ensures Run(START, [Bind(Landed), Bind(Landed), Outcome(0, HandedOff, None, Landed), Teardown(1, Landed)]).side.lifecycle == RecoveryPending
  {
    var b := [Bind(Landed), Bind(Landed)];
    var c := b + [Outcome(0, HandedOff, None, Landed)];
    TwoAreBound();
    OneSettlesOneTearsDown(Run(START, b));
    RunAppends(START, b, Outcome(0, HandedOff, None, Landed));
    RunAppends(START, c, Teardown(1, Landed));
    assert c == [Bind(Landed), Bind(Landed), Outcome(0, HandedOff, None, Landed)];
    assert c + [Teardown(1, Landed)] == [Bind(Landed), Bind(Landed), Outcome(0, HandedOff, None, Landed), Teardown(1, Landed)];
  }

  /** The host's mirror, and every validation it has in flight, show the lifecycle that the sidecar has. */
  ghost predicate Agrees(w: World, host: nat) {
    && host < |w.hosts| && w.hosts[host].mirror.lifecycle == w.side.lifecycle
    && forall i :: 0 <= i < |w.hosts[host].inFlight| ==> w.hosts[host].inFlight[i].seen.lifecycle == w.side.lifecycle
  }

  /** The lifecycle changes by another host's step, or by a write that lands and reports an error, or past a validation in flight. */
  predicate Strays(w: World, e: Event, host: nat) {
    && host < |w.hosts| && (e.Outcome? || e.Teardown?) && After(w, e).side.lifecycle != w.side.lifecycle
    && (e.host != host || e.write.LandedUnsure? || w.hosts[host].inFlight != [])
  }

  lemma StepAgreesIff(w: World, e: Event, host: nat)
    requires Agrees(w, host)
    ensures Agrees(After(w, e), host) <==> !Strays(w, e, host)
  {
    match e
    case Finish(h, i) => FinishAgrees(w, h, i, host);
    case Lock(h, reading, write) => LockAgrees(w, h, reading, write, host);
    case Outcome(h, outcome, detail, write) =>
      if h < |w.hosts| { LifecycleAgreesIff(w, h, w.side.(lifecycle := outcome, detail := Clipped(detail)), write, host); }
    case MarkCycle(h, mark, write) =>
      if h < |w.hosts| { LifecycleAgreesIff(w, h, w.side.(detail := Some(mark)), write, host); }
    case Teardown(h, write) =>
      if h < |w.hosts| && w.hosts[h].mirror.lifecycle.AwaitingHandoff? {
        LifecycleAgreesIff(w, h, w.side.(lifecycle := RecoveryPending, detail := Some("manager_session_shutdown")), write, host);
      }
    case _ =>
  }

  lemma LifecycleAgreesIff(w: World, h: nat, after: Sidecar, write: Write, host: nat)
    requires Agrees(w, host) && h < |w.hosts|
    ensures var t := LifecycleStep(w, h, after, write);
            Agrees(t, host) <==> (t.side.lifecycle == w.side.lifecycle || (h == host && write.Landed? && w.hosts[host].inFlight == []))
  {
    var t := LifecycleStep(w, h, after, write);
    if t.side.lifecycle != w.side.lifecycle && w.hosts[host].inFlight != [] {
      assert t.hosts[host].inFlight == w.hosts[host].inFlight;
      assert w.hosts[host].inFlight[0].seen.lifecycle != t.side.lifecycle;
    }
  }

  lemma FinishAgrees(w: World, h: nat, i: nat, host: nat)
    requires Agrees(w, host)
    ensures Agrees(After(w, Finish(h, i)), host)
  {
    if h == host && i < |w.hosts[host].inFlight| {
      var k := FinishedHost(w.hosts[host], i);
      assert forall j :: 0 <= j < |k.inFlight| ==> k.inFlight[j] == w.hosts[host].inFlight[if j < i then j else j + 1];
    }
  }

  lemma LockAgrees(w: World, h: nat, reading: Reading, write: Write, host: nat)
    requires Agrees(w, host)
    ensures Agrees(After(w, Lock(h, reading, write)), host)
  {
  }

  /** The states of a run. */
  ghost function States(w: World, events: seq<Event>): (r: seq<World>)
    ensures |r| == |events| + 1 && forall k :: 0 <= k <= |events| ==> r[k] == Run(w, events[..k])
  {
    seq(|events| + 1, k requires 0 <= k <= |events| => Run(w, events[..k]))
  }

  ghost predicate NeverStrays(w: World, events: seq<Event>, host: nat) {
    forall i :: 0 <= i < |events| ==> !Strays(Run(w, events[..i]), events[i], host)
  }

  /** Over any run, a host agrees with the sidecar throughout exactly when no step strays from it. */
  lemma AgreesOverRunIff(w: World, events: seq<Event>, host: nat)
    requires Agrees(w, host)
    ensures (forall k :: 0 <= k <= |events| ==> Agrees(Run(w, events[..k]), host)) <==>
            NeverStrays(w, events, host)
  {
    var trace, good := States(w, events), (i: nat) => i < |events| ==> !Strays(Run(w, events[..i]), events[i], host);
    assert trace[0] == Run(w, []) by {
      assert events[..0] == [];
    }
    forall i: nat | i + 1 < |trace| && Agrees(trace[i], host) ensures Agrees(trace[i + 1], host) <==> good(i) {
      assert events[..i + 1][..i] == events[..i];
      StepAgreesIff(trace[i], events[i], host);
    }
    ChainHoldsIff(trace, (x: World) => Agrees(x, host), good);
    assert forall i :: 0 <= i < |events| ==> (good(i) <==> !Strays(Run(w, events[..i]), events[i], host));
  }

  /** So over a run that does not stray from a host once it is bound, its teardown marks no run that is past awaiting. */
  lemma AgreedTeardownKeepsOutcomes(w: World, events: seq<Event>, write: Write)
    requires NeverStrays(After(w, Bind(Landed)), events, |w.hosts|)
    ensures var t := Run(After(w, Bind(Landed)), events);
            !t.side.lifecycle.AwaitingHandoff? ==> After(t, Teardown(|w.hosts|, write)) == t
  {
    var bound := After(w, Bind(Landed));
    BoundAgrees(w);
    AgreesAtEnd(bound, events, |w.hosts|);
    var t := Run(bound, events);
    if !t.side.lifecycle.AwaitingHandoff? {
      AgreedTeardown(t, |w.hosts|, write);
    }
  }

  lemma AgreesAtEnd(w: World, events: seq<Event>, host: nat)
    requires Agrees(w, host) && NeverStrays(w, events, host)
    ensures Agrees(Run(w, events), host)
  {
    AgreesOverRunIff(w, events, host);
    assert events[..|events|] == events;
  }

  lemma AgreedTeardown(w: World, host: nat, write: Write)
    requires Agrees(w, host) && !w.side.lifecycle.AwaitingHandoff?
    ensures After(w, Teardown(host, write)) == w
  {
  }

  /** A host agrees from the moment it is bound. */
  lemma BoundAgrees(w: World)
    ensures Agrees(After(w, Bind(Landed)), |w.hosts|)
  {
  }

  /** With one host and every write landed: an outcome recorded past a validation in flight is lost to the teardown. */
  lemma InFlightMirrorOverwritesOutcome()
    ensures var a := Content("a", 1, Done);
            var w := After(After(After(After(START, Bind(Landed)), Lock(0, a, Landed)), Outcome(0, HandedOff, None, Landed)), Finish(0, 0));
            w.side.lifecycle == HandedOff && After(w, Teardown(0, Landed)).side.lifecycle == RecoveryPending
  {
  }

  // ---- New content whose write lands unsure ---------------------------------------------------------------

  /** Presented, finished if it got so far, presented again with a sure write, and finished. */
  function PresentedTwice(w: World, host: nat, c: Reading, first: Write): World {
    var i := if host < |w.hosts| then |w.hosts[host].inFlight| else 0;
    var once := After(w, Lock(host, c, first));
    var done := if first.Landed? then After(once, Finish(host, i)) else once;
    After(After(done, Lock(host, c, Landed)), Finish(host, i))
  }

  /** Content that was new closes an open cycle by its second presentation at the latest, exactly unless its first write landed and reported an error. */
  lemma NewContentClosesIff(w: World, host: nat, c: Reading, first: Write)
    requires host < |w.hosts| && CycleIsOpen(w.hosts[host]) && c.Content? && w.side.sha256 != Some(c.sha256)
    ensures PresentedTwice(w, host, c, first).hosts[host].cycleOpen <==> first.LandedUnsure?
  {
  }

  /** Only this content, or none, is presented. */
  predicate PresentsOnly(e: Event, sha256: string) {
    e.Lock? && e.reading.Content? ==> e.reading.sha256 == sha256
  }

  /** The cycle is open, the sidecar has this content, and nothing in flight is another's novelty. */
  ghost predicate StuckOn(w: World, host: nat, sha256: string) {
    && host < |w.hosts| && w.side.sha256 == Some(sha256) && w.hosts[host].cycleOpen
    && forall i :: 0 <= i < |w.hosts[host].inFlight| ==> w.hosts[host].inFlight[i].stale
  }

  lemma StepStaysStuck(w: World, e: Event, host: nat, sha256: string)
    requires StuckOn(w, host, sha256) && PresentsOnly(e, sha256)
    ensures StuckOn(After(w, e), host, sha256)
  {
    if e.Finish? && e.host == host && e.i < |w.hosts[host].inFlight| {
      var k := FinishedHost(w.hosts[host], e.i);
      assert forall j :: 0 <= j < |k.inFlight| ==> k.inFlight[j] == w.hosts[host].inFlight[if j < e.i then j else j + 1];
    }
  }

  /** Whatever hosts do then: while no other content is presented, content that landed unsure never closes the cycle. */
  lemma {:induction false} UnsureContentNeverCloses(w: World, host: nat, c: Reading, events: seq<Event>)
    requires host < |w.hosts| && c.Content? && w.hosts[host].cycleOpen
    requires forall i :: 0 <= i < |w.hosts[host].inFlight| ==> w.hosts[host].inFlight[i].stale
    requires forall i :: 0 <= i < |events| ==> PresentsOnly(events[i], c.sha256)
    ensures StuckOn(Run(After(w, Lock(host, c, LandedUnsure)), events), host, c.sha256)
    decreases |events|
  {
    if events != [] {
      UnsureContentNeverCloses(w, host, c, events[..|events| - 1]);
      StepStaysStuck(Run(After(w, Lock(host, c, LandedUnsure)), events[..|events| - 1]), events[|events| - 1], host, c.sha256);
    }
  }

  // ---- What each step does ---------------------------------------------------------------------------------

  /** Of a sidecar: what a host shows of it. */
  predicate Mirrors(m: Mirror, s: Sidecar) {
    && (m.accepted == None <==> s.sha256 == None) && (m.accepted != None ==> m.accepted == Some((s.sha256.value, s.bytes, s.version, s.status)))
    && m.lifecycle == s.lifecycle && m.attempts == s.attempts && m.fenceVersion == s.fence
  }

  /** The sidecar with this content in it, its version up by one. */
  predicate Takes(s: Sidecar, t: Sidecar, c: Reading)
    requires c.Content?
  {
    t == s.(sha256 := Some(c.sha256), bytes := c.bytes, status := Some(c.status), version := s.version + 1)
  }

  /** A binding shows the sidecar as it is; its cycle is open exactly while no content was ever accepted. */
  lemma BindDoes(w: World, write: Write)
    ensures var t := After(w, Bind(write));
            if write == Landed then
              && |t.hosts| == |w.hosts| + 1 && t == w.(hosts := t.hosts) && t.hosts[..|w.hosts|] == w.hosts
              && var h := t.hosts[|w.hosts|];
                 h.cycleOpen == (w.side.sha256 == None) && Mirrors(h.mirror, w.side) && h.inFlight == [] && h.last == None
            else t == w
  {
  }

  /** Only this host changes, to this, and the sidecar and its history as given. */
  predicate ChangesHost(w: World, t: World, host: nat, h: Host)
    requires host < |w.hosts|
  {
    t.hosts == w.hosts[host := h]
  }

  /** A refusal to read is concluded at once; a write that did not land cleanly makes the validation unavailable. */
  lemma FailedLockDoes(w: World, host: nat, reading: Reading, write: Write)
    requires host < |w.hosts| && (reading.Refused? || write != Landed)
    ensures var t := After(w, Lock(host, reading, write));
            && ChangesHost(w, t, host, w.hosts[host].(last := Some(if reading.Refused? then reading.verdict else Unavailable)))
            && t.issued == w.issued
            && if reading.Content? && write == LandedUnsure && w.side.sha256 != Some(reading.sha256) then
                 Takes(w.side, t.side, reading) && t.contents == w.contents + [reading.sha256]
               else t.side == w.side && t.contents == w.contents
  {
  }

  /** A validation whose locked section succeeds: what it carries is the reading, at the version the sidecar then has. */
  lemma LockDoes(w: World, host: nat, c: Reading)
    requires host < |w.hosts| && c.Content?
    ensures var t, h := After(w, Lock(host, c, Landed)), w.hosts[host];
            var isNew := w.side.sha256 != Some(c.sha256);
            && t.issued == w.issued
            && (if isNew then Takes(w.side, t.side, c) && t.contents == w.contents + [c.sha256] else t.side == w.side && t.contents == w.contents)
            && |t.hosts| == |w.hosts| && |t.hosts[host].inFlight| == |h.inFlight| + 1
            && var v := t.hosts[host].inFlight[|h.inFlight|];
               && ChangesHost(w, t, host, h.(inFlight := h.inFlight + [v]))
               && v.content.status == c.status && v.content.sha256 == c.sha256 && v.content.bytes == c.bytes && v.content.version == t.side.version
               && v.seen == t.side && v.novel == isNew && v.stale == (!isNew && h.cycleOpen)
               && Conclusion(v).state == (if v.stale then Stale else Accepted)
               && Conclusion(v).artifact == (if v.stale then None else Some(v.content))
  {
  }

  /** The second half shows the sidecar as the lock left it, closes the cycle unless it was stale, and notes the verdict. */
  lemma FinishDoes(w: World, host: nat, i: nat)
    requires host < |w.hosts| && i < |w.hosts[host].inFlight|
    ensures var t, h, v := After(w, Finish(host, i)), w.hosts[host], w.hosts[host].inFlight[i];
            && t == w.(hosts := t.hosts) && |t.hosts| == |w.hosts| && ChangesHost(w, t, host, t.hosts[host])
            && var k := t.hosts[host];
               && Mirrors(k.mirror, v.seen) && k.inFlight == h.inFlight[..i] + h.inFlight[i + 1..]
               && k.cycleOpen == (v.stale && h.cycleOpen) && k.last == Some(if v.stale then Stale else Accepted)
  {
  }

  /** A repair fences the version and counts the attempt, if any is left and the version is not fenced; a token goes out only for a sure write. */
  lemma RepairDoes(w: World, host: nat, write: Write)
    requires host < |w.hosts|
    ensures var t, h := After(w, BeginRepair(host, write)), w.hosts[host];
            var may := w.side.attempts < 8 && w.side.fence != Some(w.side.version);
            && t.side == (if may && write != NotWritten then w.side.(attempts := w.side.attempts + 1, fence := Some(w.side.version)) else w.side)
            && t.issued == (if may && write == Landed then w.issued + [w.side.version] else w.issued)
            && t.contents == w.contents && |t.hosts| == |w.hosts|
            && ChangesHost(w, t, host, h.(mirror := t.hosts[host].mirror))
            && (if write == Landed then Mirrors(t.hosts[host].mirror, t.side) else t.hosts[host].mirror == h.mirror)
  {
  }

  /** The first characters, up to 256. */
  predicate ClipsTo(given: Option<string>, kept: Option<string>) {
    && (given == None <==> kept == None)
    && (given != None ==>
          && |kept.value| == (if |given.value| <= 256 then |given.value| else 256)
          && forall i :: 0 <= i < |kept.value| ==> kept.value[i] == given.value[i])
  }

  /** An outcome, a mark and a teardown change the lifecycle and its detail as they say, and a sure write shows it. */
  lemma LifecycleDoes(w: World, host: nat, e: Event)
    requires host < |w.hosts| && (e.Outcome? || e.MarkCycle? || e.Teardown?) && e.host == host
    ensures var t, h := After(w, e), w.hosts[host];
            if e.Teardown? && h.mirror.lifecycle != AwaitingHandoff then t == w
            else
              && t.issued == w.issued && t.contents == w.contents && |t.hosts| == |w.hosts|
              && t.side == w.side.(lifecycle := t.side.lifecycle, detail := t.side.detail)
              && ChangesHost(w, t, host, h.(mirror := t.hosts[host].mirror))
              && (if e.write == Landed then Mirrors(t.hosts[host].mirror, t.side) else t.hosts[host].mirror == h.mirror)
              && (e.write == NotWritten ==> t.side == w.side)
              && (e.write != NotWritten && e.Outcome? ==> t.side.lifecycle == e.outcome && ClipsTo(e.detail, t.side.detail))
              && (e.write != NotWritten && e.MarkCycle? ==> t.side.lifecycle == w.side.lifecycle && t.side.detail == Some(e.mark))
              && (e.write != NotWritten && e.Teardown? ==> t.side.lifecycle == RecoveryPending && t.side.detail == Some("manager_session_shutdown"))
  {
  }

  /** Over any run: a validation in flight, and what it accepts, carries content the sidecar took at that version. */
  ghost predicate FlightsAreTrue(w: World) {
    forall h, i :: 0 <= h < |w.hosts| && 0 <= i < |w.hosts[h].inFlight| ==> CarriesTaken(w, w.hosts[h].inFlight[i].content)
  }

  predicate CarriesTaken(w: World, a: Artifact) {
    0 < a.version <= |w.contents| && w.contents[a.version - 1] == a.sha256
  }

  lemma StepKeepsFlights(w: World, e: Event)
    requires Valid(w) && FlightsAreTrue(w)
    ensures FlightsAreTrue(After(w, e))
  {
    var t := After(w, e);
    StepPreserves(w, e);
    ContentsOnlyGrow(w, e);
    forall h, i | 0 <= h < |t.hosts| && 0 <= i < |t.hosts[h].inFlight| ensures CarriesTaken(t, t.hosts[h].inFlight[i].content) {
      if !NewFlight(w, e, h, i) {
        var k := OldFlight(w, e, h, i);
        assert CarriesTaken(w, w.hosts[h].inFlight[k].content);
      } else {
        LockDoes(w, h, e.reading);
      }
    }
  }

  lemma ContentsOnlyGrow(w: World, e: Event)
    ensures w.contents <= After(w, e).contents
  {
  }

  predicate NewFlight(w: World, e: Event, h: nat, i: nat) {
    e.Lock? && e.host == h && h < |w.hosts| && e.reading.Content? && e.write == Landed && i == |w.hosts[h].inFlight|
  }

  lemma OldFlight(w: World, e: Event, h: nat, i: nat) returns (k: nat)
    requires h < |After(w, e).hosts| && i < |After(w, e).hosts[h].inFlight| && !NewFlight(w, e, h, i)
    ensures h < |w.hosts| && k < |w.hosts[h].inFlight| && After(w, e).hosts[h].inFlight[i] == w.hosts[h].inFlight[k]
  {
    k := if e.Finish? && e.host == h && h < |w.hosts| && e.i < |w.hosts[h].inFlight| && i >= e.i then i + 1 else i;
  }

  lemma {:induction false} AcceptedWasTaken(events: seq<Event>)
    ensures Valid(Run(START, events)) && FlightsAreTrue(Run(START, events))
    decreases |events|
  {
    if events != [] {
      AcceptedWasTaken(events[..|events| - 1]);
      StepPreserves(Run(START, events[..|events| - 1]), events[|events| - 1]);
      StepKeepsFlights(Run(START, events[..|events| - 1]), events[|events| - 1]);
    }
  }

  // ---- What a wait may conclude -------------------------------------------------------------------------

  datatype Until = UntilCompleted | UntilTerminal

  predicate Matches(v: Validation, until: Until, raw: string) {
    match until
    case UntilCompleted => (raw == "idle" || raw == "done") && v.state == Accepted
    case UntilTerminal =>
      && (raw == "idle" || raw == "done" || raw == "blocked")
      && v.state == Accepted && v.artifact.Some?
      && (v.artifact.value.status == Blocked <==> raw == "blocked")
  }

  /** A finished validation satisfies no wait unless it accepted; then a completed wait and a terminal one agree but for blocked work. */
  lemma GateOnlyNarrows(v: InFlight, raw: string)
    ensures Matches(Conclusion(v), UntilCompleted, raw) || Matches(Conclusion(v), UntilTerminal, raw) ==> !v.stale && raw in {"idle", "done", "blocked"}
    ensures v.content.status != Blocked ==> (Matches(Conclusion(v), UntilCompleted, raw) <==> Matches(Conclusion(v), UntilTerminal, raw))
    ensures v.content.status == Blocked ==> !(Matches(Conclusion(v), UntilCompleted, raw) && Matches(Conclusion(v), UntilTerminal, raw))
  {
  }

  // ---- The objects ------------------------------------------------------------------------------------------

  class SidecarFile {
    var content: Sidecar

    constructor ()
      ensures content == ALLOCATED
    {
      content := ALLOCATED;
    }

    /** One update under the lock; false where the source throws. */
    method Update(after: Sidecar, write: Write) returns (ok: bool)
      modifies this
      ensures content == Updated(old(content), after, write) && ok == write.Landed?
    {
      if write.NotWritten? { return false; }
      content := after;
      return write.Landed?;
    }
  }

  class HandoffRun {
    var cycleOpen: bool
    var mirror: Mirror
    var inFlight: seq<InFlight>
    var last: Option<Verdict>

    ghost function State(): Host
      reads this
    {
      Host(cycleOpen, mirror, inFlight, last)
    }

    constructor (side: SidecarFile)
      ensures State() == Bound(side.content)
    {
      cycleOpen := side.content.sha256.None?;
      mirror := MirrorOf(side.content);
      inFlight, last := [], None;
    }

    method OpenCycle()
      modifies `cycleOpen
      ensures cycleOpen
    {
      cycleOpen := true;
    }

    method ValidateLocked(side: SidecarFile, reading: Reading, write: Write)
      modifies side, `inFlight, `last
      ensures State() == LockedHost(old(State()), old(side.content), reading, write)
      ensures side.content == if reading.Refused? then old(side.content) else Updated(old(side.content), Present(old(side.content), reading), write)
    {
      if reading.Refused? {
        last := Some(reading.verdict);
        return;
      }
      var stale := false;
      var novel := true;
      var after := side.content;
      if after.sha256 == Some(reading.sha256) {
        stale := cycleOpen;
        novel := false;
      } else {
        after := after.(sha256 := Some(reading.sha256), bytes := reading.bytes, version := after.version + 1, status := Some(reading.status));
      }
      var ok := side.Update(after, write);
      if !ok {
        last := Some(Unavailable);
        return;
      }
      inFlight := inFlight + [InFlight(stale, novel, Artifact(reading.status, reading.sha256, reading.bytes, after.version), after)];
    }

    method ValidateFinished(i: nat) returns (v: Validation)
      requires i < |inFlight|
      modifies this
      ensures State() == FinishedHost(old(State()), i) && v == Conclusion(old(inFlight)[i])
    {
      var done := inFlight[i];
      inFlight := inFlight[..i] + inFlight[i + 1..];
      mirror := MirrorOf(done.seen);
      if done.stale {
        last := Some(Stale);
        return Validation(Stale, None);
      }
      cycleOpen := false;
      last := Some(Accepted);
      return Validation(Accepted, Some(done.content));
    }

    /** The fenced version, where a token is handed out. */
    method Repair(side: SidecarFile, write: Write) returns (fence: Option<nat>)
      modifies side, `mirror
      ensures side.content == Updated(old(side.content), Fenced(old(side.content)), write)
      ensures fence == if write.Landed? && MayRepair(old(side.content)) then Some(old(side.content).version) else None
      ensures mirror == if write.Landed? then MirrorOf(side.content) else old(mirror)
    {
      fence := None;
      var after := side.content;
      if after.attempts < MAX_REPAIR_ATTEMPTS && after.fence != Some(after.version) {
        fence := Some(after.version);
        after := after.(attempts := after.attempts + 1, fence := fence);
      }
      var ok := side.Update(after, write);
      if !ok { return None; }
      mirror := MirrorOf(after);
    }

    method RecordOutcome(side: SidecarFile, outcome: Lifecycle, detail: Option<string>, write: Write) returns (ok: bool)
      modifies side, `mirror
      ensures side.content == Updated(old(side.content), old(side.content).(lifecycle := outcome, detail := Clipped(detail)), write) && ok == write.Landed?
      ensures mirror == if ok then MirrorOf(side.content) else old(mirror)
    {
      ok := side.Update(side.content.(lifecycle := outcome, detail := Clipped(detail)), write);
      if ok {
        mirror := MirrorOf(side.content);
      }
    }
  }
}
