/**
 Binding a supervisor job to its child: publications are prepared, committed, rolled back and
 published, any number of them and in any order.
 */
module Bindings {
  import opened Options

  datatype Stage = Reserved | Provisional | Exact

  datatype Child = Child(agentName: string, agentKind: string, point: string, askedKind: Option<string>, askedPoint: Option<string>)

  /** What a prepared publication's closures hold. */
  datatype Publication = Publication(
    to: Stage,
    strengthens: bool,
    fromStage: Stage,
    fromChild: Child,
    fromTargets: seq<string>,
    selected: Child,
    targets: seq<string>,
    committed: bool,
    published: bool)

  /** `aligned` says that the request has exactly one target and one generation reference. */
  datatype Binding = Binding(child: Child, targetIds: seq<string>, stage: Stage, aligned: bool, publications: seq<Publication>)

  datatype Refusal = ProvisionalInvalid | BindingInvalid | AlreadyBound | RequestInvalid | StrengtheningInvalid
                   | Unconfirmed | StrengtheningRequired | Closed | Stale | Uncommitted | Mismatch

  predicate WellFormedId(s: string) {
    s != "" && '\0' !in s && '\r' !in s && '\n' !in s
  }

  function OrElse(a: Option<string>, b: Option<string>): Option<string> {
    if a.Some? then a else b
  }

  function Unless(same: bool, s: string): Option<string> {
    if same then None else Some(s)
  }

  // ---- Preparing -----------------------------------------------------------------------------

  function ProvisionalChild(c: Child, point: string): Child {
    Child(c.agentName, "agy", point, OrElse(c.askedKind, Unless(c.agentKind == "agy", c.agentKind)), Unless(point == c.point, c.point))
  }

  function ExactChild(c: Child, agentKind: string, point: string): Child {
    Child(c.agentName, agentKind, point, OrElse(c.askedKind, Unless(agentKind == c.agentKind, c.agentKind)),
          OrElse(c.askedPoint, Unless(point == c.point, c.point)))
  }

  function ProvisionalRefusal(b: Binding, agentKind: string, point: string): Option<Refusal> {
    if agentKind != "agy" then Some(ProvisionalInvalid)
    else if !WellFormedId(point) then Some(BindingInvalid)
    else if b.stage != Reserved || b.targetIds != [] then Some(AlreadyBound)
    else if !b.aligned then Some(RequestInvalid)
    else None
  }

  /** `confirmed`: the supervisor port is there, its child is live and its view is provisional. */
  function ExactRefusal(b: Binding, agentKind: string, paneId: string, strengthening: bool, confirmed: bool): Option<Refusal> {
    if strengthening && (b.stage != Provisional || b.child.agentKind != "agy" || agentKind != "agy") then Some(StrengtheningInvalid)
    else if strengthening && !confirmed then Some(Unconfirmed)
    else if !strengthening && (agentKind == "agy" || b.stage == Provisional) then Some(StrengtheningRequired)
    else if !WellFormedId(paneId) then Some(BindingInvalid)
    else if b.stage == Exact || b.targetIds != [] then Some(AlreadyBound)
    else if !b.aligned then Some(RequestInvalid)
    else None
  }

  function Prepared(b: Binding, p: Publication): Binding {
    b.(publications := b.publications + [p])
  }

  /** A preparation changes no public field. */
  function PrepareProvisional(b: Binding, agentKind: string, point: string): (Binding, Option<Refusal>) {
    var refusal := ProvisionalRefusal(b, agentKind, point);
    if refusal.Some? then (b, refusal)
    else (Prepared(b, Publication(Provisional, false, Reserved, b.child, b.targetIds, ProvisionalChild(b.child, point), [], false, false)), None)
  }

  function PrepareExact(b: Binding, agentKind: string, point: string, paneId: string, strengthening: bool, confirmed: bool): (Binding, Option<Refusal>) {
    var refusal := ExactRefusal(b, agentKind, paneId, strengthening, confirmed);
    if refusal.Some? then (b, refusal)
    else (Prepared(b, Publication(Exact, strengthening, b.stage, b.child, b.targetIds, ExactChild(b.child, agentKind, point), [paneId], false, false)), None)
  }

  // ---- Using a publication -----------------------------------------------------------------------

  /** `live`: the gate is open and the job is running. */
  function CommitRefusal(b: Binding, i: nat, live: bool): Option<Refusal>
    requires i < |b.publications|
  {
    var p := b.publications[i];
    if p.committed then Some(AlreadyBound)
    else if !live then Some(Closed)
    else if b.stage != p.fromStage then Some(if p.to == Provisional then AlreadyBound else Stale)
    else None
  }

  function Commit(b: Binding, i: nat, live: bool): (Binding, Option<Refusal>)
    requires i < |b.publications|
  {
    var p := b.publications[i];
    var refusal := CommitRefusal(b, i, live);
    if refusal.Some? then (b, refusal)
    else (b.(child := p.selected, targetIds := p.targets, stage := p.to, publications := b.publications[i := p.(committed := true)]), None)
  }

  function Rollback(b: Binding, i: nat): Binding
    requires i < |b.publications|
  {
    var p := b.publications[i];
    if !p.committed then b
    else b.(child := p.fromChild, targetIds := p.fromTargets, stage := p.fromStage,
            publications := b.publications[i := p.(committed := false, published := false)])
  }

  /** `installed` is what comparing the publication with the installed supervisor says. */
  function Publish(b: Binding, i: nat, installed: Option<Refusal>): (Binding, Option<Refusal>)
    requires i < |b.publications|
  {
    var p := b.publications[i];
    if !p.committed then (b, Some(Uncommitted))
    else if p.published then (b, None)
    else if p.to == Exact && b.stage != Exact then (b, Some(Stale))
    else if installed.Some? then (b, installed)
    else (b.(publications := b.publications[i := p.(published := true)]), None)
  }

  // ---- Runs -----------------------------------------------------------------------------------------

  datatype Event =
    | AskProvisional(agentKind: string, point: string)
    | AskExact(agentKind: string, point: string, paneId: string, strengthening: bool, confirmed: bool)
    | DoCommit(i: nat, live: bool)
    | DoRollback(i: nat)
    | DoPublish(i: nat, installed: Option<Refusal>)

  function After(b: Binding, e: Event): Binding {
    match e
    case AskProvisional(agentKind, point) => PrepareProvisional(b, agentKind, point).0
    case AskExact(agentKind, point, paneId, strengthening, confirmed) => PrepareExact(b, agentKind, point, paneId, strengthening, confirmed).0
    case DoCommit(i, live) => if i < |b.publications| then Commit(b, i, live).0 else b
    case DoRollback(i) => if i < |b.publications| then Rollback(b, i) else b
    case DoPublish(i, installed) => if i < |b.publications| then Publish(b, i, installed).0 else b
  }

  function Run(b: Binding, events: seq<Event>): Binding
    decreases |events|
  {
    if events == [] then b else After(Run(b, events[..|events| - 1]), events[|events| - 1])
  }

  function Start(child: Child, aligned: bool): Binding {
    Binding(child, [], Reserved, aligned, [])
  }

  ghost predicate ValidPublication(p: Publication) {
    && p.fromTargets == [] && p.fromStage != Exact && p.to != Reserved
    && (p.to == Provisional ==> p.fromStage == Reserved && p.targets == [] && p.selected.agentKind == "agy" && !p.strengthens)
    && (p.to == Exact ==> |p.targets| == 1 && WellFormedId(p.targets[0]))
    && (p.to == Exact && p.selected.agentKind == "agy" <==> p.strengthens)
    && (p.strengthens <==> p.fromStage == Provisional)
    && (p.fromStage == Provisional ==> p.fromChild.agentKind == "agy")
  }

  /** This publication is committed and is what the request shows. */
  ghost predicate Shows(b: Binding, p: Publication) {
    p.committed && p.to == b.stage && p.selected == b.child && p.targets == b.targetIds
  }

  ghost predicate Valid(b: Binding) {
    && (forall i :: 0 <= i < |b.publications| ==> ValidPublication(b.publications[i]))
    && (b.targetIds != [] <==> b.stage == Exact)
    && (b.stage == Provisional ==> b.child.agentKind == "agy")
    && (b.stage == Exact ==> exists i :: 0 <= i < |b.publications| && Shows(b, b.publications[i]))
  }

  lemma CommitPreserves(b: Binding, i: nat, live: bool)
    requires Valid(b) && i < |b.publications|
    ensures Valid(Commit(b, i, live).0)
  {
    if CommitRefusal(b, i, live).None? {
      var t := Commit(b, i, live).0;
      assert ValidPublication(b.publications[i]);
      assert Shows(t, t.publications[i]);
    }
  }

  lemma PublishPreserves(b: Binding, i: nat, installed: Option<Refusal>)
    requires Valid(b) && i < |b.publications|
    ensures Valid(Publish(b, i, installed).0)
  {
    var t := Publish(b, i, installed).0;
    assert ValidPublication(b.publications[i]);
    if b.stage == Exact {
      var k :| 0 <= k < |b.publications| && Shows(b, b.publications[k]);
      assert Shows(t, t.publications[k]);
    }
  }

  lemma PreparedPreserves(b: Binding, p: Publication)
    requires Valid(b) && ValidPublication(p)
    ensures Valid(Prepared(b, p))
  {
    var t := Prepared(b, p);
    if b.stage == Exact {
      var k :| 0 <= k < |b.publications| && Shows(b, b.publications[k]);
      assert Shows(t, t.publications[k]);
    }
  }

  lemma StepPreserves(b: Binding, e: Event)
    requires Valid(b)
    ensures Valid(After(b, e))
  {
    match e
    case AskProvisional(agentKind, point) =>
      if ProvisionalRefusal(b, agentKind, point).None? {
        PreparedPreserves(b, Publication(Provisional, false, Reserved, b.child, b.targetIds, ProvisionalChild(b.child, point), [], false, false));
      }
    case AskExact(agentKind, point, paneId, strengthening, confirmed) =>
      if ExactRefusal(b, agentKind, paneId, strengthening, confirmed).None? {
        PreparedPreserves(b, Publication(Exact, strengthening, b.stage, b.child, b.targetIds, ExactChild(b.child, agentKind, point), [paneId], false, false));
      }
    case DoCommit(i, live) => if i < |b.publications| { CommitPreserves(b, i, live); }
    case DoPublish(i, installed) => if i < |b.publications| { PublishPreserves(b, i, installed); }
    case DoRollback(i) =>
  }

  lemma {:induction false} RunIsValid(child: Child, aligned: bool, events: seq<Event>)
    ensures Valid(Run(Start(child, aligned), events))
    decreases |events|
  {
    if events != [] {
      RunIsValid(child, aligned, events[..|events| - 1]);
      StepPreserves(Run(Start(child, aligned), events[..|events| - 1]), events[|events| - 1]);
    }
  }

  /**
   In any order of prepare, commit, rollback and publish: there is a target exactly in the exact
   stage, and then a committed publication put it there; an AGY child is exact only through a
   committed strengthening of a provisional AGY binding.
   */
  lemma ExactMeansBound(child: Child, aligned: bool, events: seq<Event>)
    ensures var b := Run(Start(child, aligned), events);
            && (b.targetIds != [] <==> b.stage == Exact)
            && (b.stage == Exact ==>
                  exists i :: 0 <= i < |b.publications| && Shows(b, b.publications[i])
                    && (b.child.agentKind == "agy" <==> b.publications[i].strengthens)
                    && (b.publications[i].strengthens ==> b.publications[i].fromStage == Provisional && b.publications[i].fromChild.agentKind == "agy"))
  {
    RunIsValid(child, aligned, events);
    var b := Run(Start(child, aligned), events);
    if b.stage == Exact {
      var i :| 0 <= i < |b.publications| && Shows(b, b.publications[i]);
      assert ValidPublication(b.publications[i]);
    }
  }

  /** What observers of the request can see. */
  datatype View = View(child: Child, targetIds: seq<string>, stage: Stage)

  function ViewOf(b: Binding): View {
    View(b.child, b.targetIds, b.stage)
  }

  // ---- Who wins ----------------------------------------------------------------------------------------

  function Rank(s: Stage): nat {
    match s
    case Reserved => 0
    case Provisional => 1
    case Exact => 2
  }

  /** Every commit left a different stage behind, lower than the present one. */
  ghost predicate OneWinnerEach(b: Binding) {
    && (forall i :: 0 <= i < |b.publications| && b.publications[i].committed ==> Rank(b.publications[i].fromStage) < Rank(b.stage))
    && (forall i, j :: 0 <= i < |b.publications| && 0 <= j < |b.publications| && i != j && b.publications[i].committed && b.publications[j].committed ==>
          b.publications[i].fromStage != b.publications[j].fromStage)
  }

  predicate Undoes(b: Binding, e: Event) {
    e.DoRollback? && e.i < |b.publications| && b.publications[e.i].committed
  }

  predicate Commits(b: Binding, e: Event) {
    e.DoCommit? && e.i < |b.publications| && CommitRefusal(b, e.i, e.live).None?
  }

  /** The commits lead from the reserved stage up to the present one. */
  ghost predicate Chained(b: Binding) {
    && OneWinnerEach(b)
    && (forall k :: 0 <= k < |b.publications| && b.publications[k].committed ==> Rank(b.publications[k].to) <= Rank(b.stage))
    && (forall k :: 0 <= k < |b.publications| && b.publications[k].committed && b.publications[k].fromStage == Provisional ==>
          exists j :: 0 <= j < |b.publications| && Grants(b.publications[j]))
    && (b.stage == Provisional ==> exists j :: 0 <= j < |b.publications| && Grants(b.publications[j]))
  }

  predicate Grants(p: Publication) {
    p.committed && p.to == Provisional
  }

  lemma SameChain(b: Binding, t: Binding)
    requires Chained(b) && t.stage == b.stage && |b.publications| <= |t.publications|
    requires forall k :: 0 <= k < |b.publications| ==> t.publications[k] == b.publications[k].(published := t.publications[k].published)
    requires forall k :: |b.publications| <= k < |t.publications| ==> !t.publications[k].committed
    ensures Chained(t)
  {
    if j :| 0 <= j < |b.publications| && Grants(b.publications[j]) {
      assert Grants(t.publications[j]);
    }
  }

  lemma CommitChains(b: Binding, i: nat, live: bool)
    requires Valid(b) && Chained(b) && i < |b.publications|
    ensures Chained(Commit(b, i, live).0)
  {
    var t := Commit(b, i, live).0;
    assert ValidPublication(b.publications[i]);
    if j :| 0 <= j < |b.publications| && Grants(b.publications[j]) {
      assert Grants(t.publications[j]);
    }
    if CommitRefusal(b, i, live).None? && b.publications[i].to == Provisional {
      assert Grants(t.publications[i]);
    }
  }

  lemma RollbackChains(b: Binding, i: nat)
    requires Valid(b) && Chained(b) && i < |b.publications| && Shows(b, b.publications[i])
    ensures Chained(Rollback(b, i))
  {
    var t := Rollback(b, i);
    forall k | 0 <= k < |b.publications| ensures ValidPublication(b.publications[k]) {
    }
    if j :| 0 <= j < |b.publications| && Grants(b.publications[j]) {
      assert j != i ==> Grants(t.publications[j]);
    }
  }

  /** A step that neither commits nor undoes a commit shows nothing new. */
  lemma QuietStep(b: Binding, e: Event)
    requires !Undoes(b, e) && !Commits(b, e)
    ensures var t := After(b, e);
            && ViewOf(t) == ViewOf(b) && |b.publications| <= |t.publications|
            && (forall k :: 0 <= k < |b.publications| ==> t.publications[k] == b.publications[k].(published := t.publications[k].published))
            && (forall k :: |b.publications| <= k < |t.publications| ==> !t.publications[k].committed)
  {
  }

  lemma StepChains(b: Binding, e: Event)
    requires Valid(b) && Chained(b) && UndoesShown(b, e)
    ensures Chained(After(b, e))
  {
    if Undoes(b, e) {
      RollbackChains(b, e.i);
    } else if Commits(b, e) {
      CommitChains(b, e.i, e.live);
    } else {
      QuietStep(b, e);
      SameChain(b, After(b, e));
    }
  }

  /**
   While every rollback undoes the publication that the request shows, of all publications prepared
   from one stage at most one is committed at a time.
   */
  lemma {:induction false} OneCommitPerStage(child: Child, aligned: bool, events: seq<Event>)
    requires forall k :: 0 <= k < |events| ==> UndoesShown(Run(Start(child, aligned), events[..k]), events[k])
    ensures Chained(Run(Start(child, aligned), events))
    decreases |events|
  {
    if events != [] {
      var front, e := events[..|events| - 1], events[|events| - 1];
      var b := Run(Start(child, aligned), front);
      forall k | 0 <= k < |front| ensures UndoesShown(Run(Start(child, aligned), front[..k]), front[k]) {
        assert front[..k] == events[..k];
      }
      OneCommitPerStage(child, aligned, front);
      RunIsValid(child, aligned, front);
      StepChains(b, e);
    }
  }

  ghost predicate UndoesShown(b: Binding, e: Event) {
    Undoes(b, e) ==> Shows(b, b.publications[e.i])
  }

  /** Once a binding is exact, nothing prepares and nothing commits until a rollback. */
  lemma ExactShutsOut(b: Binding, e: Event)
    requires Valid(b) && b.stage == Exact && !e.DoRollback? && !e.DoPublish?
    ensures After(b, e) == b
  {
    if e.DoCommit? && e.i < |b.publications| {
      assert ValidPublication(b.publications[e.i]);
    }
  }

  // ---- Undoing -------------------------------------------------------------------------------------------

  /** One publication's life: preparation, other lives until its commit, other lives until its rollback, and what comes after. */
  datatype Life = Nothing | Use(ask: Event, before: Life, live: bool, publishes: seq<Option<Refusal>>, during: Life, rest: Life)

  predicate Asks(l: Life) {
    l.Use? ==> (l.ask.AskProvisional? || l.ask.AskExact?) && Asks(l.before) && Asks(l.during) && Asks(l.rest)
  }

  function PublishAll(b: Binding, i: nat, publishes: seq<Option<Refusal>>): Binding
    requires i < |b.publications|
    decreases |publishes|
  {
    if publishes == [] then b
    else
      var t := Publish(b, i, publishes[0]).0;
      PublishAll(t, i, publishes[1..])
  }

  /** Lives nested like brackets. A refused preparation leaves no publication to use. */
  function Live(b: Binding, l: Life): (t: Binding)
    ensures |b.publications| <= |t.publications|
    decreases l
  {
    match l
    case Nothing => b
    case Use(ask, before, live, publishes, during, rest) =>
      var i := |b.publications|;
      var p := After(b, ask);
      if |p.publications| <= i then
        AfterKeepsLength(b, ask);
        Live(Live(Live(p, before), during), rest)
      else
        var c := Commit(Live(p, before), i, live).0;
        PublishAllKeeps(c, i, publishes);
        var d := Live(PublishAll(c, i, publishes), during);
        Live(Rollback(d, i), rest)
  }

  lemma AfterKeepsLength(b: Binding, e: Event)
    ensures |b.publications| <= |After(b, e).publications|
  {
  }

  lemma {:induction false} PublishAllKeeps(b: Binding, i: nat, publishes: seq<Option<Refusal>>)
    requires i < |b.publications|
    ensures var t := PublishAll(b, i, publishes);
            && ViewOf(t) == ViewOf(b) && t.aligned == b.aligned && |t.publications| == |b.publications|
            && (forall k :: 0 <= k < |b.publications| && k != i ==> t.publications[k] == b.publications[k])
            && t.publications[i] == b.publications[i].(published := t.publications[i].published)
    decreases |publishes|
  {
    if publishes != [] {
      PublishAllKeeps(Publish(b, i, publishes[0]).0, i, publishes[1..]);
    }
  }

  /** Later lives leave earlier publications alone. */
  ghost predicate KeepsOlder(b: Binding, t: Binding) {
    |b.publications| <= |t.publications| && forall k :: 0 <= k < |b.publications| ==> t.publications[k] == b.publications[k]
  }

  /** Nothing that an observer or an earlier publication can see has changed. */
  ghost predicate Restored(b: Binding, t: Binding) {
    Valid(t) && ViewOf(t) == ViewOf(b) && KeepsOlder(b, t)
  }

  /** Used last in, first out, publications leave the request exactly as they found it, whatever was refused on the way. */
  lemma {:induction false} LastInFirstOutRestores(b: Binding, l: Life)
    requires Valid(b) && Asks(l)
    ensures Restored(b, Live(b, l))
    decreases l
  {
    match l
    case Nothing =>
    case Use(ask, before, live, publishes, during, rest) =>
      var p := After(b, ask);
      AskRestores(b, ask);
      LastInFirstOutRestores(p, before);
      var q := Live(p, before);
      if |p.publications| <= |b.publications| {
        var r := Live(q, during);
        LastInFirstOutRestores(q, during);
        LastInFirstOutRestores(r, rest);
      } else {
        var i := |b.publications|;
        OneLife(b, ask, q, live, publishes);
        var c := PublishAll(Commit(q, i, live).0, i, publishes);
        LastInFirstOutRestores(c, during);
        var d := Live(c, during);
        EndOfLife(b, q, c, d, i);
        LastInFirstOutRestores(Rollback(d, i), rest);
      }
  }

  lemma AskRestores(b: Binding, ask: Event)
    requires Valid(b) && (ask.AskProvisional? || ask.AskExact?)
    ensures Restored(b, After(b, ask)) && |After(b, ask).publications| <= |b.publications| + 1
  {
    StepPreserves(b, ask);
  }

  /** The publication is committed over the view it was prepared from, or refused with nothing changed. */
  ghost predicate Carries(b: Binding, c: Binding, i: nat) {
    && i < |c.publications|
    && c.publications[i].fromChild == b.child && c.publications[i].fromTargets == b.targetIds && c.publications[i].fromStage == b.stage
    && (!c.publications[i].committed ==> ViewOf(c) == ViewOf(b))
  }

  lemma OneLife(b: Binding, ask: Event, q: Binding, live: bool, publishes: seq<Option<Refusal>>)
    requires Valid(b) && (ask.AskProvisional? || ask.AskExact?) && |After(b, ask).publications| == |b.publications| + 1
    requires Valid(q) && ViewOf(q) == ViewOf(b) && KeepsOlder(After(b, ask), q)
    ensures var i := |b.publications|; var c := PublishAll(Commit(q, i, live).0, i, publishes);
            Valid(c) && Carries(b, c, i) && KeepsOlder(b, c)
  {
    var i := |b.publications|;
    assert q.publications[i] == After(b, ask).publications[i];
    var m := Commit(q, i, live).0;
    StepPreserves(q, DoCommit(i, live));
    PublishAllKeeps(m, i, publishes);
  }

  lemma EndOfLife(b: Binding, q: Binding, c: Binding, d: Binding, i: nat)
    requires Valid(d) && i == |b.publications| && Carries(b, c, i) && KeepsOlder(b, c) && KeepsOlder(c, d) && ViewOf(d) == ViewOf(c)
    ensures Restored(b, Rollback(d, i))
  {
    StepPreserves(d, DoRollback(i));
  }

  // ---- Where order matters -------------------------------------------------------------------------------

  lemma RunAppends(b: Binding, events: seq<Event>, e: Event)
    ensures Run(b, events + [e]) == After(Run(b, events), e)
  {
    assert (events + [e])[..|events|] == events;
  }

  const AGY := Child("n", "agy", "x", None, None)

  const ASKED := [AskProvisional("agy", "a")]

  const HELD := ASKED + [DoCommit(0, true)]

  const PROVISIONAL := HELD + [AskExact("agy", "a", "p", true, true)]

  lemma AfterProvisional()
    ensures var a := ProvisionalChild(AGY, "a");
            Run(Start(AGY, true), PROVISIONAL) ==
            Binding(a, [], Provisional, true, [Publication(Provisional, false, Reserved, AGY, [], a, [], true, false),
                                               Publication(Exact, true, Provisional, a, [], ExactChild(a, "agy", "a"), ["p"], false, false)])
  {
    RunAppends(Start(AGY, true), HELD, AskExact("agy", "a", "p", true, true));
  }

  /**
   Staleness is judged by the stage alone: when a provisional binding is rolled back and replaced by
   another, a strengthening prepared from the first still commits, over the second.
   */
  lemma StageAloneMissesAReplacement()
    ensures var b := Run(Start(AGY, true), PROVISIONAL + [DoRollback(0)] + [AskProvisional("agy", "b")] + [DoCommit(2, true)]);
            |b.publications| == 3 && CommitRefusal(b, 1, true).None? && b.publications[1].fromChild != b.child
            && b.child.point == "b" && Commit(b, 1, true).0.child.point == "a"
  {
    AfterProvisional();
    RunAppends(Start(AGY, true), PROVISIONAL, DoRollback(0));
    RunAppends(Start(AGY, true), PROVISIONAL + [DoRollback(0)], AskProvisional("agy", "b"));
    RunAppends(Start(AGY, true), PROVISIONAL + [DoRollback(0)] + [AskProvisional("agy", "b")], DoCommit(2, true));
  }

  /** Rolling back out of order undoes a newer commit, and the newer rollback then brings back a stage that no publication holds. */
  lemma OutOfOrderRollbackStrandsAStage()
    ensures var b := Run(Start(AGY, true), PROVISIONAL + [DoCommit(1, true)] + [DoRollback(0)] + [DoRollback(1)]);
            b.stage == Provisional && b.targetIds == [] && forall i :: 0 <= i < |b.publications| ==> !b.publications[i].committed
  {
    AfterProvisional();
    RunAppends(Start(AGY, true), PROVISIONAL, DoCommit(1, true));
    RunAppends(Start(AGY, true), PROVISIONAL + [DoCommit(1, true)], DoRollback(0));
    RunAppends(Start(AGY, true), PROVISIONAL + [DoCommit(1, true)] + [DoRollback(0)], DoRollback(1));
  }

  /** The stage the request shows is the initial one, or the one that a committed publication put there. */
  ghost predicate Held(b: Binding) {
    b.stage == Reserved || exists k :: 0 <= k < |b.publications| && Shows(b, b.publications[k])
  }

  /** It undoes a strengthening, and the provisional binding that was strengthened is no longer committed. */
  predicate Strands(b: Binding, e: Event) {
    && Undoes(b, e) && b.publications[e.i].fromStage == Provisional
    && forall k :: 0 <= k < |b.publications| && k != e.i && b.publications[k].committed && b.publications[k].to == Provisional ==>
         b.publications[k].selected != b.publications[e.i].fromChild
  }

  lemma RollbackHoldsIff(b: Binding, i: nat)
    requires Valid(b) && i < |b.publications| && b.publications[i].committed
    ensures Held(Rollback(b, i)) <==> !Strands(b, DoRollback(i))
  {
    var t, p := Rollback(b, i), b.publications[i];
    assert ValidPublication(p);
    forall k | 0 <= k < |b.publications|
      ensures Shows(t, t.publications[k]) <==>
              k != i && b.publications[k].committed && b.publications[k].to == p.fromStage && b.publications[k].selected == p.fromChild
    {
      assert ValidPublication(b.publications[k]);
    }
  }

  lemma ShownStays(b: Binding, t: Binding)
    requires ViewOf(t) == ViewOf(b) && |b.publications| <= |t.publications|
    requires forall k :: 0 <= k < |b.publications| ==> t.publications[k] == b.publications[k].(published := t.publications[k].published)
    requires forall k :: |b.publications| <= k < |t.publications| ==> !t.publications[k].committed
    ensures Held(t) <==> Held(b)
  {
    forall k | 0 <= k < |b.publications| ensures Shows(t, t.publications[k]) <==> Shows(b, b.publications[k]) {
    }
  }

  /**
   In every valid state, exactly these steps end in a held stage: a commit that is accepted, a
   rollback that undoes a commit without stranding it, and any other step from a held stage.
   */
  lemma StepHoldsIff(b: Binding, e: Event)
    requires Valid(b)
    ensures Held(After(b, e)) <==> Commits(b, e) || (Undoes(b, e) && !Strands(b, e)) || (Held(b) && !Undoes(b, e))
  {
    if Undoes(b, e) {
      RollbackHoldsIff(b, e.i);
    } else if Commits(b, e) {
      var t := After(b, e);
      assert Shows(t, t.publications[e.i]);
    } else {
      QuietStep(b, e);
      ShownStays(b, After(b, e));
    }
  }

  /** So a run that strands nothing ends held. */
  lemma {:induction false} UnstrandedIsHeld(child: Child, aligned: bool, events: seq<Event>)
    requires forall k :: 0 <= k < |events| ==> !Strands(Run(Start(child, aligned), events[..k]), events[k])
    ensures Held(Run(Start(child, aligned), events))
    decreases |events|
  {
    if events != [] {
      var front := events[..|events| - 1];
      forall k | 0 <= k < |front| ensures !Strands(Run(Start(child, aligned), front[..k]), front[k]) {
        assert front[..k] == events[..k];
      }
      UnstrandedIsHeld(child, aligned, front);
      RunIsValid(child, aligned, front);
      StepHoldsIff(Run(Start(child, aligned), front), events[|events| - 1]);
    }
  }

  /** A reserved request always shows the child it started with. */
  ghost predicate Rooted(b: Binding, root: Child) {
    && (b.stage == Reserved ==> b.child == root)
    && (forall k :: 0 <= k < |b.publications| && b.publications[k].fromStage == Reserved ==> b.publications[k].fromChild == root)
  }

  lemma {:induction false} RunIsRooted(root: Child, aligned: bool, events: seq<Event>)
    ensures Rooted(Run(Start(root, aligned), events), root)
    decreases |events|
  {
    if events != [] {
      RunIsRooted(root, aligned, events[..|events| - 1]);
      RunIsValid(root, aligned, events[..|events| - 1]);
      StepIsRooted(Run(Start(root, aligned), events[..|events| - 1]), events[|events| - 1], root);
    }
  }

  lemma StepIsRooted(b: Binding, e: Event, root: Child)
    requires Valid(b) && Rooted(b, root)
    ensures Rooted(After(b, e), root)
  {
    if Commits(b, e) || Undoes(b, e) {
      assert ValidPublication(b.publications[e.i]);
    }
  }

  /**
   In every held state of every run, an accepted commit replaces the very view its publication was
   prepared from exactly when it was prepared from the reserved stage, or the provisional binding
   that is committed and shown now is for the same child as then. Just then, rolling it straight back
   restores the request.
   */
  lemma CommitMeetsItsBindingIff(root: Child, aligned: bool, events: seq<Event>, i: nat, live: bool)
    requires var b := Run(Start(root, aligned), events); Held(b) && i < |b.publications| && CommitRefusal(b, i, live).None?
    ensures var b := Run(Start(root, aligned), events); var p := b.publications[i];
            ViewOf(b) == View(p.fromChild, p.fromTargets, p.fromStage) <==>
              p.fromStage == Reserved || exists k :: 0 <= k < |b.publications| && Shows(b, b.publications[k]) && b.publications[k].selected == p.fromChild
    ensures var b := Run(Start(root, aligned), events); var p := b.publications[i];
            ViewOf(Rollback(Commit(b, i, live).0, i)) == ViewOf(b) <==> ViewOf(b) == View(p.fromChild, p.fromTargets, p.fromStage)
  {
    var b := Run(Start(root, aligned), events);
    RunIsValid(root, aligned, events);
    RunIsRooted(root, aligned, events);
    assert ValidPublication(b.publications[i]);
  }

  /** The child that a step puts into the request. */
  function Puts(b: Binding, e: Event): Option<Child> {
    if Commits(b, e) then Some(b.publications[e.i].selected)
    else if Undoes(b, e) then Some(b.publications[e.i].fromChild)
    else None
  }

  /** The child that the last commit or rollback to go through put there. */
  function LastPut(b: Binding, events: seq<Event>): Option<Child>
    decreases |events|
  {
    if events == [] then None
    else
      var put := Puts(Run(b, events[..|events| - 1]), events[|events| - 1]);
      if put.Some? then put else LastPut(b, events[..|events| - 1])
  }

  /** What a prepared publication was prepared from never changes. */
  ghost predicate SameOrigins(b: Binding, t: Binding) {
    |b.publications| <= |t.publications| && forall k :: 0 <= k < |b.publications| ==> SameOrigin(b.publications[k], t.publications[k])
  }

  predicate SameOrigin(p: Publication, q: Publication) {
    q.fromChild == p.fromChild && q.fromTargets == p.fromTargets && q.fromStage == p.fromStage
  }

  lemma StepPuts(b: Binding, e: Event)
    ensures After(b, e).child == (if Puts(b, e).Some? then Puts(b, e).value else b.child)
    ensures SameOrigins(b, After(b, e))
  {
  }

  lemma {:induction false} RunPuts(b: Binding, events: seq<Event>)
    ensures Run(b, events).child == (if LastPut(b, events).Some? then LastPut(b, events).value else b.child)
    ensures SameOrigins(b, Run(b, events))
    decreases |events|
  {
    if events != [] {
      RunPuts(b, events[..|events| - 1]);
      StepPuts(Run(b, events[..|events| - 1]), events[|events| - 1]);
    }
  }

  lemma {:induction false} RunStaysValid(b: Binding, events: seq<Event>)
    requires Valid(b)
    ensures Valid(Run(b, events))
    decreases |events|
  {
    if events != [] {
      RunStaysValid(b, events[..|events| - 1]);
      StepPreserves(Run(b, events[..|events| - 1]), events[|events| - 1]);
    }
  }

  /**
   The same by the events since the preparation: an accepted commit replaces the view its publication
   was prepared from exactly when no commit or rollback has gone through since, or the last that has
   put the same child there.
   */
  lemma CommitSincePreparationIff(b: Binding, ask: Event, since: seq<Event>, live: bool)
    requires Valid(b) && (ask.AskProvisional? || ask.AskExact?) && |After(b, ask).publications| == |b.publications| + 1
    requires var t := Run(After(b, ask), since); |b.publications| < |t.publications| && CommitRefusal(t, |b.publications|, live).None?
    ensures var t, put := Run(After(b, ask), since), LastPut(After(b, ask), since);
            ViewOf(t) == ViewOf(b) <==> put.None? || put.value == b.child
  {
    var p, t := After(b, ask), Run(After(b, ask), since);
    RunPuts(p, since);
    StepPreserves(b, ask);
    RunStaysValid(p, since);
    assert SameOrigin(p.publications[|b.publications|], t.publications[|b.publications|]);
    assert ValidPublication(t.publications[|b.publications|]);
  }

  // ---- What each step does ----------------------------------------------------------------------------------

  /** What was first asked for: what is remembered already, or what the request has when something else is given. */
  predicate Remembers(before: Option<string>, has: string, given: string, after: Option<string>) {
    after == if before != None then before else if given == has then None else Some(has)
  }

  /** A prepared provisional publication: an AGY child at the given point, no target, and all that was there before. */
  lemma ProvisionalIsPrepared(b: Binding, agentKind: string, point: string)
    ensures var (t, refusal), c := PrepareProvisional(b, agentKind, point), b.child;
            && (refusal == None <==> agentKind == "agy" && WellFormedId(point) && b.stage == Reserved && b.targetIds == [] && b.aligned)
            && (refusal != None ==> t == b)
            && (refusal == None ==>
                  && |t.publications| == |b.publications| + 1 && t == b.(publications := t.publications)
                  && t.publications[..|b.publications|] == b.publications
                  && var p := t.publications[|b.publications|];
                     && p.to == Provisional && !p.strengthens && !p.committed && !p.published && p.targets == []
                     && p.fromStage == b.stage && p.fromChild == c && p.fromTargets == b.targetIds
                     && p.selected.agentName == c.agentName && p.selected.agentKind == "agy" && p.selected.point == point
                     && Remembers(c.askedKind, c.agentKind, "agy", p.selected.askedKind)
                     && p.selected.askedPoint == (if point == c.point then None else Some(c.point)))
  {
  }

  /** A prepared exact publication: the given child and point, and the given pane as its one target. */
  lemma ExactIsPrepared(b: Binding, agentKind: string, point: string, paneId: string, strengthening: bool, confirmed: bool)
    ensures var (t, refusal), c := PrepareExact(b, agentKind, point, paneId, strengthening, confirmed), b.child;
            && (refusal == None <==>
                  && (if strengthening then b.stage == Provisional && c.agentKind == "agy" && agentKind == "agy" && confirmed
                      else agentKind != "agy" && b.stage == Reserved)
                  && WellFormedId(paneId) && b.targetIds == [] && b.aligned)
            && (refusal != None ==> t == b)
            && (refusal == None ==>
                  && |t.publications| == |b.publications| + 1 && t == b.(publications := t.publications)
                  && t.publications[..|b.publications|] == b.publications
                  && var p := t.publications[|b.publications|];
                     && p.to == Exact && p.strengthens == strengthening && !p.committed && !p.published && p.targets == [paneId]
                     && p.fromStage == b.stage && p.fromChild == c && p.fromTargets == b.targetIds
                     && p.selected.agentName == c.agentName && p.selected.agentKind == agentKind && p.selected.point == point
                     && Remembers(c.askedKind, c.agentKind, agentKind, p.selected.askedKind)
                     && Remembers(c.askedPoint, c.point, point, p.selected.askedPoint))
  {
  }

  /** Which preparation is refused with what. */
  lemma PreparationsAreRefused(b: Binding, agentKind: string, point: string, paneId: string, strengthening: bool, confirmed: bool)
    ensures PrepareProvisional(b, agentKind, point).1 in
            {None, Some(ProvisionalInvalid), Some(BindingInvalid), Some(AlreadyBound), Some(RequestInvalid)}
    ensures var r := PrepareProvisional(b, agentKind, point).1;
            && (r == Some(ProvisionalInvalid) <==> agentKind != "agy")
            && (r == Some(BindingInvalid) <==> agentKind == "agy" && !WellFormedId(point))
            && (r == Some(AlreadyBound) <==> agentKind == "agy" && WellFormedId(point) && (b.stage != Reserved || b.targetIds != []))
    ensures var r := PrepareExact(b, agentKind, point, paneId, strengthening, confirmed).1;
            && (r == Some(StrengtheningInvalid) <==> strengthening && (b.stage != Provisional || b.child.agentKind != "agy" || agentKind != "agy"))
            && (r == Some(Unconfirmed) ==> strengthening && !confirmed)
            && (r == Some(StrengtheningRequired) <==> !strengthening && (agentKind == "agy" || b.stage == Provisional))
            && (r == Some(BindingInvalid) ==> !WellFormedId(paneId)) && (r == Some(AlreadyBound) ==> b.stage == Exact || b.targetIds != [])
            && (r == Some(RequestInvalid) ==> !b.aligned)
  {
  }

  /** A commit shows what was prepared and marks it; a rollback of it shows what it was prepared from; publishing marks it. */
  lemma UsesDo(b: Binding, i: nat, live: bool, installed: Option<Refusal>)
    requires i < |b.publications|
    ensures var (t, refusal), p := Commit(b, i, live), b.publications[i];
            && (refusal == None <==> !p.committed && live && b.stage == p.fromStage)
            && (refusal == Some(AlreadyBound) <==> p.committed || (live && b.stage != p.fromStage && p.to == Provisional))
            && (refusal == Some(Closed) <==> !p.committed && !live)
            && (refusal == None ==> ViewOf(t) == View(p.selected, p.targets, p.to) && t.aligned == b.aligned
                                    && t.publications == b.publications[i := p.(committed := true)])
            && (refusal != None ==> t == b)
    ensures var t, p := Rollback(b, i), b.publications[i];
            if p.committed then
              && ViewOf(t) == View(p.fromChild, p.fromTargets, p.fromStage) && t.aligned == b.aligned
              && t.publications == b.publications[i := p.(committed := false, published := false)]
            else t == b
    ensures var (t, refusal), p := Publish(b, i, installed), b.publications[i];
            && (refusal == Some(Uncommitted) <== !p.committed) && (p.committed && p.published ==> refusal == None && t == b)
            && (p.committed && !p.published && p.to == Exact && b.stage != Exact ==> refusal == Some(Stale))
            && (p.committed && !p.published && (p.to != Exact || b.stage == Exact) ==> refusal == installed)
            && (refusal != None ==> t == b)
            && (refusal == None ==> t == b.(publications := b.publications[i := p.(published := true)]))
  {
  }

  /** `events[k]` asked for this binding. */
  predicate AskedFor(e: Event, p: Publication) {
    && (p.to == Exact ==> e.AskExact? && p.targets == [e.paneId] && p.selected.agentKind == e.agentKind && p.selected.point == e.point
                          && p.strengthens == e.strengthening)
    && (p.to == Provisional ==> e.AskProvisional? && p.selected.agentKind == e.agentKind && p.selected.point == e.point)
  }

  ghost predicate WasAskedFor(events: seq<Event>, p: Publication) {
    exists k :: 0 <= k < |events| && AskedFor(events[k], p)
  }

  lemma MoreAskedFor(events: seq<Event>, e: Event, p: Publication)
    requires WasAskedFor(events, p) || AskedFor(e, p)
    ensures WasAskedFor(events + [e], p)
  {
    if k :| 0 <= k < |events| && AskedFor(events[k], p) {
      assert AskedFor((events + [e])[k], p);
    } else {
      assert AskedFor((events + [e])[|events|], p);
    }
  }

  lemma StepAsks(b: Binding, e: Event, k: nat)
    requires k < |After(b, e).publications|
    ensures var p := After(b, e).publications[k];
            if k < |b.publications| then
              var q := b.publications[k];
              p.to == q.to && p.targets == q.targets && p.selected == q.selected && p.strengthens == q.strengthens
            else AskedFor(e, p)
  {
  }

  lemma {:induction false} PublicationsWereAskedFor(child: Child, aligned: bool, events: seq<Event>)
    ensures forall k :: 0 <= k < |Run(Start(child, aligned), events).publications| ==>
              WasAskedFor(events, Run(Start(child, aligned), events).publications[k])
    decreases |events|
  {
    if events != [] {
      var front, e := events[..|events| - 1], events[|events| - 1];
      var b := Run(Start(child, aligned), front);
      PublicationsWereAskedFor(child, aligned, front);
      assert events == front + [e];
      forall k | 0 <= k < |After(b, e).publications| ensures WasAskedFor(events, After(b, e).publications[k]) {
        StepAsks(b, e, k);
        if k < |b.publications| {
          SameAskedFor(front, b.publications[k], After(b, e).publications[k]);
        }
        MoreAskedFor(front, e, After(b, e).publications[k]);
      }
    }
  }

  lemma SameAskedFor(events: seq<Event>, q: Publication, p: Publication)
    requires WasAskedFor(events, q) && p.to == q.to && p.targets == q.targets && p.selected == q.selected && p.strengthens == q.strengthens
    ensures WasAskedFor(events, p)
  {
    var k :| 0 <= k < |events| && AskedFor(events[k], q);
    assert AskedFor(events[k], p);
  }

  /** Over any run: an exact binding shows the pane, the agent kind and the point that some exact preparation of the run asked for. */
  lemma ExactShowsWhatWasAsked(child: Child, aligned: bool, events: seq<Event>) returns (k: nat)
    requires Run(Start(child, aligned), events).stage == Exact
    ensures k < |events| && events[k].AskExact?
    ensures var b := Run(Start(child, aligned), events);
            b.targetIds == [events[k].paneId] && b.child.agentKind == events[k].agentKind && b.child.point == events[k].point
  {
    var b := Run(Start(child, aligned), events);
    RunIsValid(child, aligned, events);
    PublicationsWereAskedFor(child, aligned, events);
    var i :| 0 <= i < |b.publications| && Shows(b, b.publications[i]);
    k :| 0 <= k < |events| && AskedFor(events[k], b.publications[i]);
  }

  // ---- The record's half -----------------------------------------------------------------------------------

  class SupervisorRequest {
    const aligned: bool
    var child: Child
    var targetIds: seq<string>
    var stage: Stage
    var publications: seq<Publication>

    ghost function State(): Binding
      reads this
    {
      Binding(child, targetIds, stage, aligned, publications)
    }

    constructor (child: Child, aligned: bool)
      ensures State() == Start(child, aligned) && Valid(State())
    {
      this.child, this.aligned := child, aligned;
      targetIds, stage, publications := [], Reserved, [];
    }

    method PrepareProvisionalBinding(agentKind: string, point: string) returns (refusal: Option<Refusal>)
      modifies `publications
      ensures (State(), refusal) == PrepareProvisional(old(State()), agentKind, point)
    {
      if agentKind != "agy" { return Some(ProvisionalInvalid); }
      if !WellFormedId(point) { return Some(BindingInvalid); }
      if stage != Reserved || |targetIds| != 0 { return Some(AlreadyBound); }
      if !aligned { return Some(RequestInvalid); }
      publications := publications + [Publication(Provisional, false, Reserved, child, targetIds, ProvisionalChild(child, point), [], false, false)];
      return None;
    }

    method PrepareExactBinding(agentKind: string, point: string, paneId: string, strengthening: bool, confirmed: bool)
      returns (refusal: Option<Refusal>)
      modifies `publications
      ensures (State(), refusal) == PrepareExact(old(State()), agentKind, point, paneId, strengthening, confirmed)
    {
      if strengthening {
        if stage != Provisional || child.agentKind != "agy" || agentKind != "agy" { return Some(StrengtheningInvalid); }
        if !confirmed { return Some(Unconfirmed); }
      } else if agentKind == "agy" || stage == Provisional {
        return Some(StrengtheningRequired);
      }
      if !WellFormedId(paneId) { return Some(BindingInvalid); }
      if stage == Exact || |targetIds| != 0 { return Some(AlreadyBound); }
      if !aligned { return Some(RequestInvalid); }
      publications := publications + [Publication(Exact, strengthening, stage, child, targetIds, ExactChild(child, agentKind, point), [paneId], false, false)];
      return None;
    }

    method CommitPublication(i: nat, live: bool) returns (refusal: Option<Refusal>)
      requires i < |publications|
      modifies `child, `targetIds, `stage, `publications
      ensures (State(), refusal) == Commit(old(State()), i, live)
    {
      var p := publications[i];
      if p.committed { return Some(AlreadyBound); }
      if !live { return Some(Closed); }
      if stage != p.fromStage { return Some(if p.to == Provisional then AlreadyBound else Stale); }
      child := p.selected;
      targetIds := p.targets;
      stage := p.to;
      publications := publications[i := p.(committed := true)];
      return None;
    }

    method RollBackPublication(i: nat)
      requires i < |publications|
      modifies `child, `targetIds, `stage, `publications
      ensures State() == Rollback(old(State()), i)
    {
      var p := publications[i];
      if !p.committed { return; }
      child := p.fromChild;
      targetIds := p.fromTargets;
      stage := p.fromStage;
      publications := publications[i := p.(committed := false, published := false)];
    }

    method PublishPublication(i: nat, installed: Option<Refusal>) returns (refusal: Option<Refusal>)
      requires i < |publications|
      modifies `publications
      ensures (State(), refusal) == Publish(old(State()), i, installed)
    {
      var p := publications[i];
      if !p.committed { return Some(Uncommitted); }
      if p.published { return None; }
      if p.to == Exact && stage != Exact { return Some(Stale); }
      if installed.Some? { return installed; }
      publications := publications[i := p.(published := true)];
      return None;
    }
  }
}
