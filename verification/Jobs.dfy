/**
 One job of the registry: the phase, the gate and its fence, the runner, the activities it opens, and
 any number of concurrent cancel calls.

 Each step is one synchronous stretch of code between awaits, or one section under the transition
 lock. `settledBy` and `abandoned` are history: who settled the job, and whether session teardown
 caught it unsettled.
 */
module Jobs {
  import opened Options

  datatype Kind = Wait | Supervisor

  datatype Phase = Accepted | Running | CancelRequested | Settled

  /** What the runner's promise came to. `kind` is the shape of the result, which picks the fields written. */
  datatype Answer = Fulfilled(kind: Kind, outcome: string, matched: bool, reason: Option<string>)
                  | Rejected(code: Option<string>, partial: Option<Result>)

  datatype Result = Result(outcome: string, matched: bool, reason: Option<string>)

  /** Where `execute` stands. */
  datatype Runner = Queued | TurnedBack | InRun | Back(answer: Answer) | Over

  /** Where one `cancel` call stands; `Woke` holds the drain it observed. */
  datatype Call = Draining | Woke(drained: bool) | Answered

  datatype Actor = ByRunner | ByCancel(call: nat)

  datatype Late = Late(fulfilled: bool, at: int)

  datatype Progress = Progress(text: string, at: int)

  /** The terminal fields, written together by a settlement. */
  datatype End =
    | WaitEnd(who: Actor, at: int, outcome: string, result: Result, error: Option<string>)
    | SupervisionEnd(who: Actor, at: int, outcome: string, reason: Option<string>, error: Option<string>)

  datatype Job = Job(
    kind: Kind,
    phase: Phase,
    gateOpen: bool,
    fence: nat,
    runner: Runner,
    runnerDone: bool,
    activityCount: int,
    open: set<nat>,
    handles: nat,
    startedAt: Option<int>,
    end: Option<End>,
    terminalEvents: nat,
    cancelReason: Option<string>,
    late: Option<Late>,
    progress: Option<Progress>,
    review: Option<string>,
    calls: map<nat, Call>,
    abandoned: bool)

  function Registered(kind: Kind): Job {
    Job(kind, Accepted, true, 0, Queued, false, 0, {}, 0, None, None, 0, None, None, None, None, map[], false)
  }

  predicate Drained(j: Job) {
    j.runnerDone && j.activityCount == 0
  }

  function CloseGate(j: Job): Job {
    j.(gateOpen := false, fence := j.fence + 1)
  }

  // ---- Settlement ------------------------------------------------------------------------

  /** The one settlement gate: the fence first, then the terminal fields. */
  function SettleOnce(j: Job, end: End, tell: bool): Job {
    if j.phase.Settled? then j
    else CloseGate(j).(phase := Settled, end := Some(end), terminalEvents := j.terminalEvents + if tell then 1 else 0)
  }

  function SettleWait(j: Job, who: Actor, outcome: string, result: Option<Result>, error: Option<string>, now: int): Job {
    var summary := if result.Some? then result.value else Result(outcome, false, Some(if error.Some? then error.value else "unknown"));
    SettleOnce(j, WaitEnd(who, now, outcome, summary, error), j.cancelReason.None? && outcome != "cancelled")
  }

  function SettleSupervision(j: Job, who: Actor, outcome: string, reason: Option<string>, error: Option<string>, now: int): Job {
    SettleOnce(j, SupervisionEnd(who, now, outcome, reason, error), true)
  }

  function SettleEither(j: Job, who: Actor, outcome: string, error: Option<string>, now: int): Job {
    if j.kind.Supervisor? then SettleSupervision(j, who, outcome, error, error, now)
    else SettleWait(j, who, outcome, None, error, now)
  }

  // ---- Steps ------------------------------------------------------------------------------------

  /** The first locked section of `execute`. */
  function BeginStep(j: Job, now: int): Job {
    if !j.runner.Queued? then j
    else if !j.phase.Accepted? || !j.gateOpen then j.(runner := TurnedBack)
    else j.(phase := Running, runner := InRun, startedAt := Some(now))
  }

  /** Outside the lock: the runner that was turned back, or the runner's promise settling. */
  function DoneStep(j: Job, answer: Answer): Job {
    if j.runner.TurnedBack? then j.(runner := Over, runnerDone := true)
    else if j.runner.InRun? then j.(runner := Back(answer), runnerDone := true)
    else j
  }

  function ErrorCode(a: Answer): string
    requires a.Rejected?
  {
    if a.code.Some? then a.code.value else "unknown"
  }

  /** The last locked section of `execute`. */
  function ConcludeStep(j: Job, now: int): Job {
    if !j.runner.Back? then j
    else
      var a := j.runner.answer;
      var settled := if !j.phase.Running? then j.(late := if j.late.Some? then j.late else Some(Late(a.Fulfilled?, now))) else Concluded(j, a, now);
      settled.(runner := Over)
  }

  function Concluded(j: Job, a: Answer, now: int): Job {
    match a
    case Fulfilled(Supervisor, outcome, _, reason) => SettleSupervision(j, ByRunner, outcome, reason, None, now)
    case Fulfilled(Wait, outcome, matched, reason) => SettleWait(j, ByRunner, outcome, Some(Result(outcome, matched, reason)), None, now)
    case Rejected(code, partial) =>
      if j.kind.Supervisor? then SettleSupervision(j, ByRunner, "failed", code, Some(ErrorCode(a)), now)
      else SettleWait(j, ByRunner, "failed", partial, Some(ErrorCode(a)), now)
  }

  function UpdateStep(j: Job, text: string, now: int): Job {
    if !j.phase.Running? || !j.gateOpen then j else j.(progress := Some(Progress(text, now)))
  }

  function OpenStep(j: Job): Job {
    if !j.gateOpen then j
    else j.(activityCount := j.activityCount + 1, open := j.open + {j.handles}, handles := j.handles + 1)
  }

  /** A release handle; called again it does nothing. */
  function ReleaseStep(j: Job, handle: nat): Job {
    if handle !in j.open then j else j.(activityCount := j.activityCount - 1, open := j.open - {handle})
  }

  function ReviewStep(j: Job, projection: string): Job {
    if !j.kind.Wait? || !j.gateOpen || !j.phase.Running? then j else j.(review := Some(projection))
  }

  /** The first locked section of a cancel call. A live supervised child refuses it. */
  function CancelStep(j: Job, call: nat, childLive: bool): Job {
    if call in j.calls then j
    else if j.phase.Settled? then j.(calls := j.calls[call := Answered])
    else if j.phase.CancelRequested? then j.(calls := j.calls[call := Draining])
    else if childLive then j.(calls := j.calls[call := Answered])
    else CloseGate(j).(phase := CancelRequested, cancelReason := Some("cancelled"), calls := j.calls[call := Draining])
  }

  /** A cancel call stops waiting, on the drain signal or at the bound, and looks again. */
  function WakeStep(j: Job, call: nat): Job {
    if call in j.calls && j.calls[call].Draining? then j.(calls := j.calls[call := Woke(Drained(j))]) else j
  }

  /** The last locked section of a cancel call. */
  function FinishStep(j: Job, call: nat, now: int): Job {
    if call !in j.calls || !j.calls[call].Woke? then j
    else
      var settled := if j.calls[call].drained then SettleEither(j, ByCancel(call), "cancelled", None, now)
                     else SettleEither(j, ByCancel(call), "unknown", Some("CANCELLATION_UNCERTAIN"), now);
      settled.(calls := j.calls[call := Answered])
  }

  /** Session teardown. */
  function AbandonStep(j: Job): Job {
    if j.phase.Settled? then j
    else CloseGate(j).(phase := CancelRequested, cancelReason := Some("shutdown"), runnerDone := true, abandoned := true)
  }

  // ---- Runs --------------------------------------------------------------------------------------

  datatype Event =
    | Begin(now: int)
    | Done(answer: Answer)
    | Conclude(now: int)
    | Update(text: string, now: int)
    | OpenActivity
    | Release(handle: nat)
    | Review(projection: string)
    | Cancel(call: nat, childLive: bool)
    | Wake(call: nat)
    | Finish(call: nat, now: int)
    | Abandon

  function After(j: Job, e: Event): Job {
    match e
    case Begin(now) => BeginStep(j, now)
    case Done(answer) => DoneStep(j, answer)
    case Conclude(now) => ConcludeStep(j, now)
    case Update(text, now) => UpdateStep(j, text, now)
    case OpenActivity => OpenStep(j)
    case Release(handle) => ReleaseStep(j, handle)
    case Review(projection) => ReviewStep(j, projection)
    case Cancel(call, childLive) => CancelStep(j, call, childLive)
    case Wake(call) => WakeStep(j, call)
    case Finish(call, now) => FinishStep(j, call, now)
    case Abandon => AbandonStep(j)
  }

  function Run(j: Job, events: seq<Event>): Job
    decreases |events|
  {
    if events == [] then j else After(Run(j, events[..|events| - 1]), events[|events| - 1])
  }

  function Rank(p: Phase): nat {
    match p
    case Accepted => 0
    case Running => 1
    case CancelRequested => 2
    case Settled => 3
  }

  /** The runner will write nothing more, and no activity is open. */
  predicate Quiet(j: Job) {
    (j.runner.Back? || j.runner.Over?) && j.open == {} && j.activityCount == 0
  }

  ghost predicate GateAgrees(j: Job) {
    && (j.gateOpen <==> j.phase.Accepted? || j.phase.Running?)
    && (j.gateOpen <==> j.fence == 0)
    && (j.phase.Accepted? ==> j.runner.Queued?)
    && (j.phase.Running? ==> j.runner.InRun? || j.runner.Back?)
    && (j.gateOpen ==> j.cancelReason.None? && !j.abandoned)
  }

  ghost predicate CountsAgree(j: Job) {
    && j.activityCount == |j.open| && (forall h :: h in j.open ==> h < j.handles)
    && (j.runnerDone <==> j.runner.Back? || j.runner.Over? || j.abandoned)
    && (j.startedAt.Some? ==> !j.runner.Queued? && !j.runner.TurnedBack?)
    && (j.runner.InRun? || j.runner.Back? ==> j.startedAt.Some?)
  }

  /** Settled means ended, with one terminal event, save for a wait that ends in or after a cancellation. */
  ghost predicate EndAgrees(j: Job) {
    && (j.phase.Settled? <==> j.end.Some?)
    && j.terminalEvents == if j.end.Some? && (j.end.value.SupervisionEnd? || (j.cancelReason.None? && j.end.value.outcome != "cancelled")) then 1 else 0
  }

  /** A cancel call says `cancelled` when it saw the drain, and otherwise says that it is uncertain. */
  ghost predicate CancelEnd(j: Job, who: Actor, outcome: string, error: Option<string>) {
    who.ByCancel? ==>
      || (error.None? && outcome == "cancelled" && (Quiet(j) || j.abandoned))
      || (error == Some("CANCELLATION_UNCERTAIN") && outcome == "unknown")
  }

  /** Whoever observed the drain, or settled on it, was right, unless teardown forced the flag. */
  ghost predicate DrainsAreTrue(j: Job) {
    && (forall c :: c in j.calls && !j.calls[c].Answered? ==> !j.gateOpen)
    && (forall c :: c in j.calls && j.calls[c] == Woke(true) ==> Quiet(j) || j.abandoned)
    && (j.end.Some? ==> CancelEnd(j, j.end.value.who, j.end.value.outcome, j.end.value.error))
  }

  ghost predicate Valid(j: Job) {
    GateAgrees(j) && CountsAgree(j) && EndAgrees(j) && DrainsAreTrue(j)
  }

  lemma SettlePreserves(j: Job, end: End, tell: bool)
    requires Valid(j) && !j.phase.Accepted? && CancelEnd(j, end.who, end.outcome, end.error)
    requires tell <==> end.SupervisionEnd? || (j.cancelReason.None? && end.outcome != "cancelled")
    ensures Valid(SettleOnce(j, end, tell))
  {
  }

  lemma ConcludePreserves(j: Job, now: int)
    requires Valid(j)
    ensures Valid(ConcludeStep(j, now))
  {
    if j.runner.Back? {
      if j.phase.Running? {
        var end, tell := ConcludedIsSettled(j, j.runner.answer, now);
        SettlePreserves(j, end, tell);
      }
      OverIsValid(if !j.phase.Running? then j.(late := if j.late.Some? then j.late else Some(Late(j.runner.answer.Fulfilled?, now))) else Concluded(j, j.runner.answer, now));
    }
  }

  lemma ConcludedIsSettled(j: Job, a: Answer, now: int) returns (end: End, tell: bool)
    ensures Concluded(j, a, now) == SettleOnce(j, end, tell) && end.who.ByRunner?
    ensures tell <==> end.SupervisionEnd? || (j.cancelReason.None? && end.outcome != "cancelled")
  {
    match a
    case Fulfilled(Supervisor, outcome, _, reason) => end, tell := SupervisionEnd(ByRunner, now, outcome, reason, None), true;
    case Fulfilled(Wait, outcome, matched, reason) =>
      end, tell := WaitEnd(ByRunner, now, outcome, Result(outcome, matched, reason), None), j.cancelReason.None? && outcome != "cancelled";
    case Rejected(code, partial) =>
      var e := Some(ErrorCode(a));
      if j.kind.Supervisor? {
        end, tell := SupervisionEnd(ByRunner, now, "failed", code, e), true;
      } else {
        end := WaitEnd(ByRunner, now, "failed", if partial.Some? then partial.value else Result("failed", false, e), e);
        tell := j.cancelReason.None?;
      }
  }

  lemma OverIsValid(j: Job)
    requires Valid(j) && j.runner.Back? && !j.phase.Running?
    ensures Valid(j.(runner := Over))
  {
  }

  lemma FinishPreserves(j: Job, call: nat, now: int)
    requires Valid(j)
    ensures Valid(FinishStep(j, call, now))
  {
    if call in j.calls && j.calls[call].Woke? {
      var end, tell := FinishIsSettled(j, call, now);
      SettlePreserves(j, end, tell);
    }
  }

  lemma BeginPreserves(j: Job, now: int)
    requires Valid(j)
    ensures Valid(BeginStep(j, now))
  {
  }

  lemma DonePreserves(j: Job, answer: Answer)
    requires Valid(j)
    ensures Valid(DoneStep(j, answer))
  {
  }

  lemma CancelPreserves(j: Job, call: nat, childLive: bool)
    requires Valid(j)
    ensures Valid(CancelStep(j, call, childLive))
  {
  }

  lemma AbandonPreserves(j: Job)
    requires Valid(j)
    ensures Valid(AbandonStep(j))
  {
  }

  lemma WakePreserves(j: Job, call: nat)
    requires Valid(j)
    ensures Valid(WakeStep(j, call))
  {
  }

  lemma OpenPreserves(j: Job)
    requires Valid(j)
    ensures Valid(OpenStep(j))
  {
  }

  lemma StepPreserves(j: Job, e: Event)
    requires Valid(j)
    ensures Valid(After(j, e))
  {
    match e
    case Conclude(now) => ConcludePreserves(j, now);
    case Finish(call, now) => FinishPreserves(j, call, now);
    case Begin(now) => BeginPreserves(j, now);
    case Done(answer) => DonePreserves(j, answer);
    case Cancel(call, childLive) => CancelPreserves(j, call, childLive);
    case Abandon => AbandonPreserves(j);
    case Wake(call) => WakePreserves(j, call);
    case OpenActivity => OpenPreserves(j);
    case Release(handle) =>
      assert handle in j.open ==> |j.open - {handle}| == |j.open| - 1;
    case _ =>
  }

  /** Every reachable state is valid, teardown included. */
  lemma {:induction false} RunIsValid(kind: Kind, events: seq<Event>)
    ensures Valid(Run(Registered(kind), events))
    decreases |events|
  {
    if events != [] {
      RunIsValid(kind, events[..|events| - 1]);
      StepPreserves(Run(Registered(kind), events[..|events| - 1]), events[|events| - 1]);
    }
  }

  // ---- What later states keep --------------------------------------------------------------------

  /** The phase and the fence never go back; the end and the first late observation are final. */
  ghost predicate Follows(j: Job, t: Job) {
    && Rank(j.phase) <= Rank(t.phase) && j.fence <= t.fence && t.kind == j.kind
    && (j.startedAt.Some? ==> t.startedAt == j.startedAt)
    && (j.late.Some? ==> t.late == j.late)
    && (j.phase.Settled? ==> t.end == j.end && t.terminalEvents == j.terminalEvents && t.cancelReason == j.cancelReason)
    && (!j.gateOpen ==> !t.gateOpen && t.progress == j.progress && t.review == j.review && t.open <= j.open && t.handles == j.handles)
    && (!j.gateOpen && Quiet(j) ==> Quiet(t))
    && (j.abandoned ==> t.abandoned)
  }

  lemma SettleFollows(j: Job, end: End, tell: bool)
    requires Valid(j)
    ensures Follows(j, SettleOnce(j, end, tell))
  {
  }

  lemma ConcludeFollows(j: Job, now: int)
    requires Valid(j)
    ensures Follows(j, ConcludeStep(j, now))
  {
    if j.runner.Back? && j.phase.Running? {
      var end, tell := ConcludedIsSettled(j, j.runner.answer, now);
      SettleFollows(j, end, tell);
    }
  }

  lemma FinishFollows(j: Job, call: nat, now: int)
    requires Valid(j)
    ensures Follows(j, FinishStep(j, call, now))
  {
    if call in j.calls && j.calls[call].Woke? {
      var end, tell := FinishIsSettled(j, call, now);
      SettleFollows(j, end, tell);
    }
  }

  lemma FinishIsSettled(j: Job, call: nat, now: int) returns (end: End, tell: bool)
    requires call in j.calls && j.calls[call].Woke?
    ensures FinishStep(j, call, now) == SettleOnce(j, end, tell).(calls := j.calls[call := Answered])
    ensures end.who == ByCancel(call) && (tell <==> end.SupervisionEnd? || (j.cancelReason.None? && end.outcome != "cancelled"))
    ensures if j.calls[call].drained then end.error.None? && end.outcome == "cancelled"
            else end.error == Some("CANCELLATION_UNCERTAIN") && end.outcome == "unknown"
  {
    var outcome, error := if j.calls[call].drained then "cancelled" else "unknown",
                          if j.calls[call].drained then None else Some("CANCELLATION_UNCERTAIN");
    if j.kind.Supervisor? {
      end, tell := SupervisionEnd(ByCancel(call), now, outcome, error, error), true;
    } else {
      end := WaitEnd(ByCancel(call), now, outcome, Result(outcome, false, Some(if error.Some? then error.value else "unknown")), error);
      tell := j.cancelReason.None? && outcome != "cancelled";
    }
  }

  lemma CancelFollows(j: Job, call: nat, childLive: bool)
    requires Valid(j)
    ensures Follows(j, CancelStep(j, call, childLive))
  {
  }

  lemma AbandonFollows(j: Job)
    requires Valid(j)
    ensures Follows(j, AbandonStep(j))
  {
  }

  lemma BeginFollows(j: Job, now: int)
    requires Valid(j)
    ensures Follows(j, BeginStep(j, now))
  {
  }

  lemma StepFollows(j: Job, e: Event)
    requires Valid(j)
    ensures Follows(j, After(j, e))
  {
    match e
    case Conclude(now) => ConcludeFollows(j, now);
    case Finish(call, now) => FinishFollows(j, call, now);
    case Cancel(call, childLive) => CancelFollows(j, call, childLive);
    case Abandon => AbandonFollows(j);
    case Begin(now) => BeginFollows(j, now);
    case _ =>
  }

  lemma FollowsIsTransitive(a: Job, b: Job, c: Job)
    requires Follows(a, b) && Follows(b, c)
    ensures Follows(a, c)
  {
  }

  /** Nothing that follows, in any interleaving, undoes these. */
  lemma {:induction false} RunFollows(j: Job, events: seq<Event>)
    requires Valid(j)
    ensures Valid(Run(j, events)) && Follows(j, Run(j, events))
    decreases |events|
  {
    if events != [] {
      var k := Run(j, events[..|events| - 1]);
      RunFollows(j, events[..|events| - 1]);
      StepPreserves(k, events[|events| - 1]);
      StepFollows(k, events[|events| - 1]);
      FollowsIsTransitive(j, k, Run(j, events));
    }
  }

  predicate TearsDown(events: seq<Event>) {
    exists i :: 0 <= i < |events| && events[i].Abandon?
  }

  lemma {:induction false} AbandonedMeansTornDown(kind: Kind, events: seq<Event>)
    requires Run(Registered(kind), events).abandoned
    ensures TearsDown(events)
    decreases |events|
  {
    if events != [] {
      var front, e := events[..|events| - 1], events[|events| - 1];
      var k := Run(Registered(kind), front);
      if e.Abandon? {
        assert events[|events| - 1].Abandon?;
      } else {
        StepAbandons(k, e);
        AbandonedMeansTornDown(kind, front);
        var i :| 0 <= i < |front| && front[i].Abandon?;
        assert events[i].Abandon?;
      }
    }
  }

  lemma StepAbandons(j: Job, e: Event)
    requires !e.Abandon?
    ensures After(j, e).abandoned == j.abandoned
  {
    if e.Conclude? && j.runner.Back? && j.phase.Running? {
      var end, tell := ConcludedIsSettled(j, j.runner.answer, e.now);
    }
  }

  /**
   In every run without teardown, a cancel call that settles the job as `cancelled` found the runner
   done with no activity open, and in every later state that is still so.
   */
  lemma CancelledMeansQuiet(kind: Kind, events: seq<Event>, more: seq<Event>)
    requires var j := Run(Registered(kind), events);
             j.end.Some? && j.end.value.who.ByCancel? && j.end.value.outcome == "cancelled" && !TearsDown(events)
    ensures Quiet(Run(Registered(kind), events))
    ensures var t := Run(Run(Registered(kind), events), more); Quiet(t) && t.end == Run(Registered(kind), events).end
  {
    var j := Run(Registered(kind), events);
    RunIsValid(kind, events);
    if j.abandoned {
      AbandonedMeansTornDown(kind, events);
    }
    RunFollows(j, more);
  }

  // ---- Cancelled, teardown or not ------------------------------------------------------------------

  /** The state after the first `k` events. */
  function At(kind: Kind, events: seq<Event>, k: nat): Job
    requires k <= |events|
  {
    Run(Registered(kind), events[..k])
  }

  lemma AtStep(kind: Kind, events: seq<Event>, k: nat)
    requires k < |events|
    ensures At(kind, events, k + 1) == After(At(kind, events, k), events[k])
  {
    assert events[..k + 1][..k] == events[..k];
  }

  /** `events[w]` is the wake in which this call saw the drain. */
  ghost predicate SeesDrain(kind: Kind, events: seq<Event>, call: nat, w: nat) {
    && w < |events| && events[w] == Wake(call)
    && call in At(kind, events, w).calls && At(kind, events, w).calls[call].Draining? && Drained(At(kind, events, w))
  }

  predicate Returns(j: Job, e: Event) {
    e.Done? && (j.runner.InRun? || j.runner.TurnedBack?)
  }

  /** Within the first `k` events the runner returned, or was turned back. */
  ghost predicate CameBack(kind: Kind, events: seq<Event>, k: nat)
    requires k <= |events|
  {
    exists i :: 0 <= i < k && Returns(At(kind, events, i), events[i])
  }

  predicate SettledByCancel(j: Job, call: nat) {
    j.end.Some? && j.end.value.who == ByCancel(call) && j.end.value.outcome == "cancelled"
  }

  predicate SawDrain(j: Job, call: nat) {
    (call in j.calls && j.calls[call] == Woke(true)) || SettledByCancel(j, call)
  }

  lemma StepSeesDrain(j: Job, e: Event, call: nat)
    requires SawDrain(After(j, e), call) && !SawDrain(j, call)
    ensures e == Wake(call) && call in j.calls && j.calls[call].Draining? && Drained(j)
  {
    if e.Conclude? && j.runner.Back? && j.phase.Running? {
      var end, tell := ConcludedIsSettled(j, j.runner.answer, e.now);
    }
    if e.Finish? && e.call in j.calls && j.calls[e.call].Woke? {
      var end, tell := FinishIsSettled(j, e.call, e.now);
    }
  }

  lemma {:induction false} DrainWasSeen(kind: Kind, events: seq<Event>, k: nat, call: nat) returns (w: nat)
    requires k <= |events| && SawDrain(At(kind, events, k), call)
    ensures w < k && SeesDrain(kind, events, call, w)
  {
    if k == 0 {
      assert false;
    } else {
      AtStep(kind, events, k - 1);
      if SawDrain(At(kind, events, k - 1), call) {
        w := DrainWasSeen(kind, events, k - 1, call);
      } else {
        StepSeesDrain(At(kind, events, k - 1), events[k - 1], call);
        w := k - 1;
      }
    }
  }

  predicate IsBack(j: Job) {
    j.runner.Back? || j.runner.Over?
  }

  lemma StepBack(j: Job, e: Event)
    ensures IsBack(After(j, e)) <==> IsBack(j) || Returns(j, e)
  {
    if e.Conclude? && j.runner.Back? && j.phase.Running? {
      var end, tell := ConcludedIsSettled(j, j.runner.answer, e.now);
    }
    if e.Finish? && e.call in j.calls && j.calls[e.call].Woke? {
      var end, tell := FinishIsSettled(j, e.call, e.now);
    }
  }

  lemma {:induction false} BackIff(kind: Kind, events: seq<Event>, k: nat)
    requires k <= |events|
    ensures IsBack(At(kind, events, k)) <==> CameBack(kind, events, k)
  {
    if k == 0 {
      assert At(kind, events, 0) == Registered(kind);
    } else {
      BackIff(kind, events, k - 1);
      AtStep(kind, events, k - 1);
      StepBack(At(kind, events, k - 1), events[k - 1]);
    }
  }

  lemma {:induction false} RunSplits(j: Job, front: seq<Event>, back: seq<Event>)
    ensures Run(j, front + back) == Run(Run(j, front), back)
    decreases |back|
  {
    if back == [] {
      assert front + back == front;
    } else {
      RunSplits(j, front, back[..|back| - 1]);
      assert (front + back)[..|front + back| - 1] == front + back[..|back| - 1];
    }
  }

  /** Once a drain has been seen, nothing is opened again. */
  lemma DrainedStaysEmpty(kind: Kind, events: seq<Event>, call: nat, w: nat, k: nat)
    requires SeesDrain(kind, events, call, w) && w <= k <= |events|
    ensures At(kind, events, k).open == {} && At(kind, events, k).activityCount == 0
  {
    RunIsValid(kind, events[..w]);
    RunIsValid(kind, events[..k]);
    assert events[..k] == events[..w] + events[w..k];
    RunSplits(Registered(kind), events[..w], events[w..k]);
    RunFollows(At(kind, events, w), events[w..k]);
  }

  /**
   In every run, teardown included, that a cancel call settles as `cancelled`: that call saw a drain,
   and from that wake on the job is quiet exactly when the runner has by then returned or been
   turned back. Teardown is the only way to see a drain before that.
   */
  lemma CancelledIsQuietIff(kind: Kind, events: seq<Event>, call: nat) returns (w: nat)
    requires SettledByCancel(Run(Registered(kind), events), call)
    ensures SeesDrain(kind, events, call, w)
    ensures forall k: nat :: w <= k <= |events| ==> (Quiet(At(kind, events, k)) <==> CameBack(kind, events, k))
    ensures CameBack(kind, events, w) || TearsDown(events[..w])
  {
    assert events[..|events|] == events;
    w := DrainWasSeen(kind, events, |events|, call);
    forall k: nat | w <= k <= |events| ensures Quiet(At(kind, events, k)) <==> CameBack(kind, events, k) {
      DrainedStaysEmpty(kind, events, call, w, k);
      BackIff(kind, events, k);
    }
    if !CameBack(kind, events, w) {
      BackIff(kind, events, w);
      RunIsValid(kind, events[..w]);
      AbandonedMeansTornDown(kind, events[..w]);
    }
  }

  /** A wait that was cancelled and torn down while it ran. */
  lemma TornDown()
    ensures var j := Run(Registered(Wait), [Begin(0), Cancel(0, false), Abandon]);
            j.phase.CancelRequested? && j.kind.Wait? && j.runner.InRun? && Drained(j) && j.calls == map[0 := Draining]
  {
    var a := [Begin(0)];
    var b := a + [Cancel(0, false)];
    assert Run(Registered(Wait), []) == Registered(Wait);
    RunAppends(Registered(Wait), [], Begin(0));
    RunAppends(Registered(Wait), a, Cancel(0, false));
    RunAppends(Registered(Wait), b, Abandon);
    assert b + [Abandon] == [Begin(0), Cancel(0, false), Abandon];
  }

  /** Teardown is why: it forces the runner's flag, so a cancel call already waiting reports `cancelled` over a live runner. */
  lemma TeardownFakesTheDrain()
    ensures var j := Run(Registered(Wait), [Begin(0), Cancel(0, false), Abandon, Wake(0), Finish(0, 1)]);
            SettledByCancel(j, 0) && j.runner.InRun?
  {
    var c := [Begin(0), Cancel(0, false), Abandon];
    var d := c + [Wake(0)];
    TornDown();
    RunAppends(Registered(Wait), c, Wake(0));
    RunAppends(Registered(Wait), d, Finish(0, 1));
    assert d + [Finish(0, 1)] == [Begin(0), Cancel(0, false), Abandon, Wake(0), Finish(0, 1)];
  }

  lemma RunAppends(j: Job, events: seq<Event>, e: Event)
    ensures Run(j, events + [e]) == After(Run(j, events), e)
  {
    assert (events + [e])[..|events|] == events;
  }

  // ---- What each step does ------------------------------------------------------------------------

  function CodeOf(a: Answer): string
    requires a.Rejected?
  {
    match a.code
    case Some(code) => code
    case None => "unknown"
  }

  /** The end that the runner's answer calls for. */
  ghost predicate AnswersAs(end: End, kind: Kind, a: Answer, now: int) {
    && end.who == ByRunner && end.at == now
    && (a.Fulfilled? ==>
          && end.outcome == a.outcome && end.error == None
          && (a.kind == Wait ==> end.WaitEnd? && end.result.outcome == a.outcome && end.result.matched == a.matched && end.result.reason == a.reason)
          && (a.kind == Supervisor ==> end.SupervisionEnd? && end.reason == a.reason))
    && (a.Rejected? ==>
          && end.outcome == "failed" && end.error == Some(CodeOf(a))
          && (kind == Supervisor ==> end.SupervisionEnd? && end.reason == a.code)
          && (kind == Wait && a.partial.Some? ==> end.WaitEnd? && end.result == a.partial.value)
          && (kind == Wait && a.partial.None? ==>
                end.WaitEnd? && end.result.outcome == "failed" && !end.result.matched && end.result.reason == Some(CodeOf(a))))
  }

  /** The end that a cancel call calls for: sure or unsure of the drain. */
  ghost predicate CancelledAs(end: End, kind: Kind, call: nat, drained: bool, now: int) {
    && end.who == ByCancel(call) && end.at == now
    && end.outcome == (if drained then "cancelled" else "unknown")
    && end.error == (if drained then None else Some("CANCELLATION_UNCERTAIN"))
    && (kind == Supervisor ==> end.SupervisionEnd? && end.reason == end.error)
    && (kind == Wait ==>
          && end.WaitEnd? && end.result.outcome == end.outcome && !end.result.matched
          && end.result.reason == Some(if drained then "unknown" else "CANCELLATION_UNCERTAIN"))
  }

  /** Settled just now, behind a gate closed once more, and nothing else but what is named. */
  ghost predicate SettlesAs(j: Job, t: Job, end: End, runner: Runner, calls: map<nat, Call>, tell: bool) {
    t == j.(phase := Settled, gateOpen := false, fence := j.fence + 1, end := Some(end), runner := runner, calls := calls,
            terminalEvents := j.terminalEvents + if tell then 1 else 0)
  }

  /** A running job whose runner is back is settled by its answer; any other only notes that it came late, once. */
  lemma ConcludeDoes(j: Job, now: int)
    requires j.runner.Back?
    ensures var t, a := After(j, Conclude(now)), j.runner.answer;
            if j.phase == Running then
              && t.end.Some? && AnswersAs(t.end.value, j.kind, a, now)
              && SettlesAs(j, t, t.end.value, Over, j.calls,
                           t.end.value.SupervisionEnd? || (j.cancelReason == None && t.end.value.outcome != "cancelled"))
            else
              t == j.(runner := Over, late := if j.late == None then Some(Late(a.Fulfilled?, now)) else j.late)
  {
  }

  /** The second half of a cancel call settles an unsettled job by the drain it saw. */
  lemma FinishDoes(j: Job, call: nat, now: int)
    requires call in j.calls && j.calls[call].Woke?
    ensures var t, calls := After(j, Finish(call, now)), j.calls[call := Answered];
            if j.phase == Settled then t == j.(calls := calls)
            else
              && t.end.Some? && CancelledAs(t.end.value, j.kind, call, j.calls[call].drained, now)
              && SettlesAs(j, t, t.end.value, j.runner, calls,
                           t.end.value.SupervisionEnd? || (j.cancelReason == None && t.end.value.outcome != "cancelled"))
  {
  }

  /** Everything that the remaining steps change. */
  lemma OthersDo(j: Job, e: Event)
    requires !e.Conclude? && !e.Finish?
    ensures var t := After(j, e); var live := j.phase == Running && j.gateOpen;
            match e
            case Begin(now) =>
              if j.runner != Queued then t == j
              else if j.phase == Accepted && j.gateOpen then t == j.(phase := Running, runner := InRun, startedAt := Some(now))
              else t == j.(runner := TurnedBack)
            case Done(answer) =>
              if j.runner == InRun then t == j.(runner := Back(answer), runnerDone := true)
              else if j.runner == TurnedBack then t == j.(runner := Over, runnerDone := true)
              else t == j
            case Update(text, now) => t == if live then j.(progress := Some(Progress(text, now))) else j
            case OpenActivity =>
              t == if j.gateOpen then j.(activityCount := j.activityCount + 1, open := j.open + {j.handles}, handles := j.handles + 1) else j
            case Release(handle) => t == if handle in j.open then j.(activityCount := j.activityCount - 1, open := j.open - {handle}) else j
            case Review(projection) => t == if live && j.kind == Wait then j.(review := Some(projection)) else j
            case Cancel(call, childLive) =>
              if call in j.calls then t == j
              else if j.phase == Settled || (childLive && j.phase != CancelRequested) then t == j.(calls := j.calls[call := Answered])
              else if j.phase == CancelRequested then t == j.(calls := j.calls[call := Draining])
              else t == j.(calls := j.calls[call := Draining], phase := CancelRequested, gateOpen := false, fence := j.fence + 1,
                           cancelReason := Some("cancelled"))
            case Wake(call) =>
              if call in j.calls && j.calls[call] == Draining then
                t == j.(calls := j.calls[call := Woke(j.runnerDone && j.activityCount == 0)])
              else t == j
            case Abandon =>
              t == if j.phase == Settled then j
                   else j.(phase := CancelRequested, gateOpen := false, fence := j.fence + 1, cancelReason := Some("shutdown"),
                           runnerDone := true, abandoned := true)
            case _ => true
  {
  }

  // ---- Every end has its cause ----------------------------------------------------------------------

  /** `events[i]` is the runner's promise settling with this answer. */
  ghost predicate CameBackWith(kind: Kind, events: seq<Event>, i: nat, a: Answer) {
    i < |events| && events[i] == Done(a) && At(kind, events, i).runner == InRun
  }

  /** `events[k]` settled the job so: by the answer the runner had come back with, or by what a cancel call had seen. */
  ghost predicate EndedAt(kind: Kind, events: seq<Event>, k: nat, end: End) {
    && k < |events| && At(kind, events, k).phase != Settled
    && match events[k]
       case Conclude(now) =>
         && At(kind, events, k).phase == Running
         && exists i, a :: 0 <= i < k && CameBackWith(kind, events, i, a) && AnswersAs(end, kind, a, now)
       case Finish(call, now) =>
         && call in At(kind, events, k).calls && At(kind, events, k).calls[call].Woke?
         && CancelledAs(end, kind, call, At(kind, events, k).calls[call].drained, now)
       case _ => false
  }

  lemma StepRunner(j: Job, e: Event)
    ensures After(j, e).runner.Back? ==> After(j, e).runner == j.runner || (e.Done? && j.runner == InRun && After(j, e).runner.answer == e.answer)
  {
    if e.Conclude? && j.runner.Back? {
      ConcludeDoes(j, e.now);
    } else if e.Finish? && e.call in j.calls && j.calls[e.call].Woke? {
      FinishDoes(j, e.call, e.now);
    }
  }

  lemma {:induction false} BackHasAnswer(kind: Kind, events: seq<Event>, k: nat) returns (i: nat)
    requires k <= |events| && At(kind, events, k).runner.Back?
    ensures i < k && CameBackWith(kind, events, i, At(kind, events, k).runner.answer)
  {
    if k == 0 {
      assert false;
    } else {
      AtStep(kind, events, k - 1);
      StepRunner(At(kind, events, k - 1), events[k - 1]);
      if At(kind, events, k - 1).runner.Back? {
        i := BackHasAnswer(kind, events, k - 1);
      } else {
        i := k - 1;
      }
    }
  }

  lemma StepKind(j: Job, e: Event)
    ensures After(j, e).kind == j.kind
    ensures After(j, e).end != j.end ==> (e.Conclude? && j.runner.Back?) || (e.Finish? && e.call in j.calls && j.calls[e.call].Woke?)
  {
  }

  lemma {:induction false} KindStays(kind: Kind, events: seq<Event>, k: nat)
    requires k <= |events|
    ensures At(kind, events, k).kind == kind
  {
    if k > 0 {
      KindStays(kind, events, k - 1);
      AtStep(kind, events, k - 1);
      StepKind(At(kind, events, k - 1), events[k - 1]);
    }
  }

  /** Over any run, the end of a settled job has its cause, with every field as that cause calls for. */
  lemma {:induction false} EndHasCause(kind: Kind, events: seq<Event>, k: nat) returns (c: nat)
    requires k <= |events| && At(kind, events, k).end.Some?
    ensures c < k && EndedAt(kind, events, c, At(kind, events, k).end.value)
  {
    if k == 0 {
      assert false;
    } else {
      var j, e := At(kind, events, k - 1), events[k - 1];
      AtStep(kind, events, k - 1);
      RunIsValid(kind, events[..k - 1]);
      if After(j, e).end == j.end {
        c := EndHasCause(kind, events, k - 1);
      } else {
        c := k - 1;
        StepKind(j, e);
        KindStays(kind, events, k - 1);
        if e.Conclude? {
          ConcludeDoes(j, e.now);
          var i := BackHasAnswer(kind, events, k - 1);
        } else {
          FinishDoes(j, e.call, e.now);
        }
      }
    }
  }

  // ---- The record ---------------------------------------------------------------------------------

  /** What a cancel call's first section comes to. */
  datatype Asked = NothingToDo | Refused | Waits

  class JobRecord {
    const kind: Kind
    var phase: Phase
    var gateOpen: bool
    var fence: nat
    var runner: Runner
    var runnerDone: bool
    var activityCount: int
    var open: set<nat>
    var handles: nat
    var startedAt: Option<int>
    var end: Option<End>
    var terminalEvents: nat
    var cancelReason: Option<string>
    var late: Option<Late>
    var progress: Option<Progress>
    var review: Option<string>
    var calls: map<nat, Call>
    var abandoned: bool

    ghost function State(): Job
      reads this
    {
      Job(kind, phase, gateOpen, fence, runner, runnerDone, activityCount, open, handles, startedAt, end, terminalEvents,
          cancelReason, late, progress, review, calls, abandoned)
    }

    constructor (kind: Kind)
      ensures State() == Registered(kind) && Valid(State())
    {
      this.kind := kind;
      phase, gateOpen, fence, runner, runnerDone := Accepted, true, 0, Queued, false;
      activityCount, open, handles, startedAt, end, terminalEvents := 0, {}, 0, None, None, 0;
      cancelReason, late, progress, review, calls, abandoned := None, None, None, None, map[], false;
    }

    method CloseItsGate()
      modifies `gateOpen, `fence
      ensures !gateOpen && fence == old(fence) + 1
    {
      gateOpen := false;
      fence := fence + 1;
    }

    method Settle(how: End, tell: bool) returns (settled: bool)
      modifies `gateOpen, `fence, `phase, `end, `terminalEvents
      ensures State() == SettleOnce(old(State()), how, tell) && settled == !old(phase).Settled?
    {
      if phase.Settled? { return false; }
      CloseItsGate();
      phase := Settled;
      end := Some(how);
      if tell {
        terminalEvents := terminalEvents + 1;
      }
      return true;
    }

    method SettleAsWait(who: Actor, outcome: string, result: Option<Result>, error: Option<string>, now: int)
      modifies `gateOpen, `fence, `phase, `end, `terminalEvents
      ensures State() == SettleWait(old(State()), who, outcome, result, error, now)
    {
      var summary := if result.Some? then result.value else Result(outcome, false, Some(if error.Some? then error.value else "unknown"));
      var _ := Settle(WaitEnd(who, now, outcome, summary, error), cancelReason.None? && outcome != "cancelled");
    }

    method SettleAsSupervision(who: Actor, outcome: string, reason: Option<string>, error: Option<string>, now: int)
      modifies `gateOpen, `fence, `phase, `end, `terminalEvents
      ensures State() == SettleSupervision(old(State()), who, outcome, reason, error, now)
    {
      var _ := Settle(SupervisionEnd(who, now, outcome, reason, error), true);
    }

    /** The locked section that starts the runner, or turns it back. */
    method BeginRun(now: int) returns (started: bool)
      requires runner.Queued?
      modifies this
      ensures State() == BeginStep(old(State()), now) && (started <==> runner.InRun?)
    {
      if phase != Accepted || !gateOpen {
        runner := TurnedBack;
        return false;
      }
      phase := Running;
      runner := InRun;
      startedAt := Some(now);
      return true;
    }

    method RunnerIsDone(answer: Answer)
      modifies `runner, `runnerDone
      ensures State() == DoneStep(old(State()), answer)
    {
      if runner.TurnedBack? {
        runner, runnerDone := Over, true;
      } else if runner.InRun? {
        runner, runnerDone := Back(answer), true;
      }
    }

    method ObserveLate(fulfilled: bool, now: int)
      modifies `late
      ensures late == if old(late).Some? then old(late) else Some(Late(fulfilled, now))
    {
      if late.Some? { return; }
      late := Some(Late(fulfilled, now));
    }

    method ConcludeRun(now: int)
      requires runner.Back?
      modifies this
      ensures State() == ConcludeStep(old(State()), now)
    {
      var answer := runner.answer;
      if phase != Running {
        ObserveLate(answer.Fulfilled?, now);
      } else {
        match answer
        case Fulfilled(Supervisor, outcome, _, reason) => SettleAsSupervision(ByRunner, outcome, reason, None, now);
        case Fulfilled(Wait, outcome, matched, reason) => SettleAsWait(ByRunner, outcome, Some(Result(outcome, matched, reason)), None, now);
        case Rejected(code, partial) =>
          var error := Some(ErrorCode(answer));
          if kind.Supervisor? {
            SettleAsSupervision(ByRunner, "failed", code, error, now);
          } else {
            SettleAsWait(ByRunner, "failed", partial, error, now);
          }
      }
      runner := Over;
    }

    method UpdateProgress(text: string, now: int)
      modifies `progress, `activityCount
      ensures State() == UpdateStep(old(State()), text, now)
    {
      if phase != Running || !gateOpen { return; }
      activityCount := activityCount + 1;
      progress := Some(Progress(text, now));
      activityCount := activityCount - 1;
    }

    /** None where the source throws because the fence is closed. */
    method BeginActivity() returns (handle: Option<nat>)
      modifies `activityCount, `open, `handles
      ensures State() == OpenStep(old(State()))
      ensures handle == if gateOpen then Some(old(handles)) else None
    {
      if !gateOpen { return None; }
      handle := Some(handles);
      activityCount := activityCount + 1;
      open := open + {handles};
      handles := handles + 1;
    }

    method ReleaseActivity(handle: nat)
      modifies `activityCount, `open
      ensures State() == ReleaseStep(old(State()), handle)
    {
      if handle !in open { return; }
      open := open - {handle};
      activityCount := activityCount - 1;
    }

    method PublishReview(projection: string) returns (published: bool)
      modifies `review
      ensures State() == ReviewStep(old(State()), projection)
      ensures published <==> kind.Wait? && gateOpen && phase.Running?
    {
      if kind != Wait { return false; }
      if !gateOpen || phase != Running { return false; }
      review := Some(projection);
      return true;
    }

    method AskToCancel(call: nat, childLive: bool) returns (asked: Asked)
      requires call !in calls
      modifies this
      ensures State() == CancelStep(old(State()), call, childLive)
      ensures asked.Waits? <==> calls[call].Draining?
      ensures asked.Refused? <==> childLive && (old(phase).Accepted? || old(phase).Running?)
    {
      if phase == Settled {
        calls := calls[call := Answered];
        return NothingToDo;
      }
      if phase == CancelRequested {
        calls := calls[call := Draining];
        return Waits;
      }
      if childLive {
        calls := calls[call := Answered];
        return Refused;
      }
      CloseItsGate();
      phase := CancelRequested;
      cancelReason := Some("cancelled");
      calls := calls[call := Draining];
      return Waits;
    }

    /** The end of `waitForDrain`: what it observes. */
    method LookAgain(call: nat)
      requires call in calls && calls[call].Draining?
      modifies `calls
      ensures State() == WakeStep(old(State()), call)
    {
      calls := calls[call := Woke(runnerDone && activityCount == 0)];
    }

    method FinishCancel(call: nat, now: int)
      requires call in calls && calls[call].Woke?
      modifies this
      ensures State() == FinishStep(old(State()), call, now)
    {
      var outcome := if calls[call].drained then "cancelled" else "unknown";
      var error := if calls[call].drained then None else Some("CANCELLATION_UNCERTAIN");
      if kind.Supervisor? {
        SettleAsSupervision(ByCancel(call), outcome, error, error, now);
      } else {
        SettleAsWait(ByCancel(call), outcome, None, error, now);
      }
      calls := calls[call := Answered];
    }

    method TearDown()
      modifies this
      ensures State() == AbandonStep(old(State()))
    {
      if phase == Settled { return; }
      CloseItsGate();
      phase := CancelRequested;
      cancelReason := Some("shutdown");
      runnerDone := true;
      abandoned := true;
    }
  }
}
