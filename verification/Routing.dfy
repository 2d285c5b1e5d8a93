/**
 Routing a task: the operating points of the catalog, their availability under recorded failures, and
 the walk down the tier chains that leaves out what cannot start.

 The gate that reports availability is a parameter of the walk; `Availability` is the one in use.
 */
module Routing {
  import opened Options
  import R = Ranking

  // ---- The catalog -------------------------------------------------------------------------

  datatype QuotaKey = QuotaKey(provider: string, billingProduct: string, account: string, scope: string)

  datatype Model = Model(model: string, provider: Option<string>, billingProduct: Option<string>, account: Option<string>, reasoning: seq<string>)

  datatype Runner = Runner(kind: string, models: seq<Model>, quota: QuotaKey)

  datatype Point = Point(id: string, runner: string, model: string, reasoning: Option<string>, provider: string, quota: QuotaKey)

  function Given(x: Option<string>, otherwise: string): string {
    if x.Some? then x.value else otherwise
  }

  /** A model's own attribution, merged over its runner's. */
  function ModelQuotaKey(m: Option<Model>, r: Runner): QuotaKey {
    if m.None? then r.quota
    else QuotaKey(Given(m.value.provider, r.quota.provider), Given(m.value.billingProduct, r.quota.billingProduct),
                  Given(m.value.account, r.quota.account), r.quota.scope)
  }

  function BareId(runner: string, model: string): string {
    runner + ":" + model
  }

  function PointFor(r: Runner, m: Model, reasoning: Option<string>): Point {
    var quota := ModelQuotaKey(Some(m), r);
    Point(if reasoning.None? then BareId(r.kind, m.model) else BareId(r.kind, m.model) + ":" + reasoning.value, r.kind, m.model, reasoning, quota.provider, quota)
  }

  function Reasoned(r: Runner, m: Model, settings: seq<string>): (ps: seq<Point>)
    ensures |ps| == |settings| && forall i :: 0 <= i < |ps| ==> ps[i] == PointFor(r, m, Some(settings[i]))
  {
    if settings == [] then [] else [PointFor(r, m, Some(settings[0]))] + Reasoned(r, m, settings[1..])
  }

  function ModelPoints(r: Runner, m: Model): seq<Point> {
    if m.reasoning == [] then [PointFor(r, m, None)] else Reasoned(r, m, m.reasoning)
  }

  function RunnerPoints(r: Runner, models: seq<Model>): seq<Point> {
    if models == [] then [] else ModelPoints(r, models[0]) + RunnerPoints(r, models[1..])
  }

  function GeneratePoints(runners: seq<Runner>): seq<Point> {
    if runners == [] then [] else RunnerPoints(runners[0], runners[0].models) + GeneratePoints(runners[1..])
  }

  lemma Regather(a: seq<Point>, b: seq<Point>, c: seq<Point>)
    ensures (a + b) + c == a + (b + c)
  {
  }

  method GenerateModel(r: Runner, m: Model) returns (points: seq<Point>)
    ensures points == ModelPoints(r, m)
  {
    points := [];
    if |m.reasoning| == 0 { return [PointFor(r, m, None)]; }
    for k := 0 to |m.reasoning|
      invariant points == Reasoned(r, m, m.reasoning)[..k]
    {
      points := points + [PointFor(r, m, Some(m.reasoning[k]))];
    }
  }

  method GenerateRunner(r: Runner) returns (points: seq<Point>)
    ensures points == RunnerPoints(r, r.models)
  {
    points := [];
    for j := 0 to |r.models|
      invariant points + RunnerPoints(r, r.models[j..]) == RunnerPoints(r, r.models)
    {
      assert r.models[j..][1..] == r.models[j + 1..];
      var more := GenerateModel(r, r.models[j]);
      Regather(points, more, RunnerPoints(r, r.models[j + 1..]));
      points := points + more;
    }
  }

  lemma GatherMore(points: seq<Point>, runners: seq<Runner>, i: nat, all: seq<Point>)
    requires i < |runners| && points + GeneratePoints(runners[i..]) == all
    ensures (points + RunnerPoints(runners[i], runners[i].models)) + GeneratePoints(runners[i + 1..]) == all
  {
    assert runners[i..][0] == runners[i] && runners[i..][1..] == runners[i + 1..];
    Regather(points, RunnerPoints(runners[i], runners[i].models), GeneratePoints(runners[i + 1..]));
  }

  method GenerateAll(runners: seq<Runner>) returns (points: seq<Point>)
    ensures points == GeneratePoints(runners)
  {
    points := [];
    ghost var all := GeneratePoints(runners);
    assert runners[0..] == runners;
    for i := 0 to |runners|
      invariant points + GeneratePoints(runners[i..]) == all
    {
      GatherMore(points, runners, i, all);
      var more := GenerateRunner(runners[i]);
      points := points + more;
    }
  }

  predicate NoNul(s: string) {
    '\0' !in s
  }

  predicate KeyHasNoNul(k: QuotaKey) {
    NoNul(k.provider) && NoNul(k.billingProduct) && NoNul(k.account) && NoNul(k.scope)
  }

  /** What the catalog's parser checks: runner kinds and a runner's model names are distinct, and no field holds a NUL. */
  ghost predicate Reviewed(runners: seq<Runner>) {
    && (forall i, j :: 0 <= i < j < |runners| ==> runners[i].kind != runners[j].kind)
    && (forall i :: 0 <= i < |runners| ==> ReviewedRunner(runners[i]))
  }

  ghost predicate ReviewedRunner(r: Runner) {
    && KeyHasNoNul(r.quota)
    && (forall i, j :: 0 <= i < j < |r.models| ==> r.models[i].model != r.models[j].model)
    && (forall m :: m in r.models ==> NoNul(Given(m.provider, "")) && NoNul(Given(m.billingProduct, "")) && NoNul(Given(m.account, "")))
  }

  function FindModel(models: seq<Model>, name: string): Option<Model> {
    if models == [] then None else if models[0].model == name then Some(models[0]) else FindModel(models[1..], name)
  }

  /** `quotaKeyFor`: what a runner and a model name are admitted under. */
  function QuotaKeyFor(model: string, r: Runner): QuotaKey {
    ModelQuotaKey(FindModel(r.models, model), r)
  }

  function FindRunner(runners: seq<Runner>, kind: string): Option<Runner> {
    if runners == [] then None else if runners[0].kind == kind then Some(runners[0]) else FindRunner(runners[1..], kind)
  }

  lemma {:induction false} FindsModel(models: seq<Model>, m: Model)
    requires m in models && forall i, j :: 0 <= i < j < |models| ==> models[i].model != models[j].model
    ensures FindModel(models, m.model) == Some(m)
  {
    if models[0] != m {
      var i :| 0 <= i < |models| && models[i] == m;
      assert models[1..][i - 1] == m;
      FindsModel(models[1..], m);
    }
  }

  lemma {:induction false} FindsRunner(runners: seq<Runner>, r: Runner)
    requires r in runners && forall i, j :: 0 <= i < j < |runners| ==> runners[i].kind != runners[j].kind
    ensures FindRunner(runners, r.kind) == Some(r)
  {
    if runners[0] != r {
      var i :| 0 <= i < |runners| && runners[i] == r;
      assert runners[1..][i - 1] == r;
      FindsRunner(runners[1..], r);
    }
  }

  lemma {:induction false} RunnerPointFrom(r: Runner, models: seq<Model>, p: Point) returns (m: Model, reasoning: Option<string>)
    requires p in RunnerPoints(r, models)
    ensures m in models && p == PointFor(r, m, reasoning)
    ensures if reasoning.None? then m.reasoning == [] else reasoning.value in m.reasoning
  {
    if p in ModelPoints(r, models[0]) {
      m := models[0];
      if m.reasoning == [] {
        reasoning := None;
      } else {
        var i :| 0 <= i < |m.reasoning| && Reasoned(r, m, m.reasoning)[i] == p;
        reasoning := Some(m.reasoning[i]);
      }
    } else {
      m, reasoning := RunnerPointFrom(r, models[1..], p);
    }
  }

  /** Every generated point comes from a runner, one of its models and one of that model's settings. */
  lemma {:induction false} PointFrom(runners: seq<Runner>, p: Point) returns (r: Runner, m: Model, reasoning: Option<string>)
    requires p in GeneratePoints(runners)
    ensures r in runners && m in r.models && p == PointFor(r, m, reasoning)
    ensures if reasoning.None? then m.reasoning == [] else reasoning.value in m.reasoning
  {
    if p in RunnerPoints(runners[0], runners[0].models) {
      r := runners[0];
      m, reasoning := RunnerPointFrom(r, r.models, p);
    } else {
      r, m, reasoning := PointFrom(runners[1..], p);
    }
  }

  /** A generated point carries the quota key that its runner and model are admitted under. */
  lemma GeneratedQuota(runners: seq<Runner>, p: Point)
    requires Reviewed(runners) && p in GeneratePoints(runners)
    ensures FindRunner(runners, p.runner).Some? && p.quota == QuotaKeyFor(p.model, FindRunner(runners, p.runner).value)
    ensures p.provider == p.quota.provider && KeyHasNoNul(p.quota)
  {
    var r, m, reasoning := PointFrom(runners, p);
    FindsRunner(runners, r);
    assert ReviewedRunner(r);
    FindsModel(r.models, m);
  }

  // ---- Quota identities --------------------------------------------------------------------------

  function QuotaIdentity(k: QuotaKey): string {
    k.provider + "\0" + k.billingProduct + "\0" + k.account + "\0" + k.scope
  }

  /** Texts joined by a separator that the first part does not hold come apart in one way. */
  lemma SplitsFirst(sep: char, a: string, b: string, c: string, d: string)
    requires sep !in a && sep !in c && a + [sep] + b == c + [sep] + d
    ensures a == c && b == d
  {
    var s, t := a + [sep] + b, c + [sep] + d;
    assert s[|a|] == sep && t[|c|] == sep;
    assert forall i :: 0 <= i < |a| ==> s[i] == a[i];
    assert forall i :: 0 <= i < |c| ==> t[i] == c[i];
    assert |a| == |c|;
    assert s[..|a|] == a && t[..|c|] == c;
    assert s[|a| + 1..] == b && t[|c| + 1..] == d;
  }

  /** Different keys have different identities, as no field holds a NUL. */
  lemma QuotaIdentityIsInjective(k: QuotaKey, l: QuotaKey)
    requires KeyHasNoNul(k) && KeyHasNoNul(l) && QuotaIdentity(k) == QuotaIdentity(l)
    ensures k == l
  {
    var k3, l3 := k.account + "\0" + k.scope, l.account + "\0" + l.scope;
    var k2, l2 := k.billingProduct + "\0" + k3, l.billingProduct + "\0" + l3;
    Regroup(k.provider, k.billingProduct, k.account, k.scope);
    Regroup(l.provider, l.billingProduct, l.account, l.scope);
    SplitsFirst('\0', k.provider, k2, l.provider, l2);
    SplitsFirst('\0', k.billingProduct, k3, l.billingProduct, l3);
    SplitsFirst('\0', k.account, k.scope, l.account, l.scope);
  }

  lemma Regroup(a: string, b: string, c: string, d: string)
    ensures a + "\0" + b + "\0" + c + "\0" + d == a + "\0" + (b + "\0" + (c + "\0" + d))
  {
  }

  // ---- Point ids -------------------------------------------------------------------------------------

  lemma ColonSplitsLast(a: string, b: string, c: string, d: string)
    requires ':' !in b && ':' !in d && a + ":" + b == c + ":" + d
    ensures a == c && b == d
  {
    var s, t := a + ":" + b, c + ":" + d;
    assert s[|a|] == ':' && t[|c|] == ':';
    assert forall i :: 0 <= i < |b| ==> s[|a| + 1 + i] == b[i];
    assert forall i :: 0 <= i < |d| ==> t[|c| + 1 + i] == d[i];
    assert forall i :: |a| < i < |s| ==> s[i] == b[i - |a| - 1];
    assert forall i :: |c| < i < |t| ==> t[i] == d[i - |c| - 1];
    assert |a| == |c|;
    assert s[..|a|] == a && t[..|c|] == c;
    assert s[|a| + 1..] == b && t[|c| + 1..] == d;
  }

  /** Runner kinds and reasoning settings are words of closed sets; none has a colon. */
  ghost predicate WordsHaveNoColon(runners: seq<Runner>) {
    forall r :: r in runners ==> ':' !in r.kind && forall m, s :: m in r.models && s in m.reasoning ==> ':' !in s
  }

  /** A bare model of some runner is named like another of its models with one of that model's settings. */
  ghost predicate Ambiguous(runners: seq<Runner>) {
    exists r, m, n, s :: r in runners && m in r.models && n in r.models && m.reasoning == [] && s in n.reasoning && m.model == n.model + ":" + s
  }

  lemma {:induction false} SettingHasPoint(r: Runner, models: seq<Model>, m: Model, reasoning: Option<string>)
    requires m in models && if reasoning.None? then m.reasoning == [] else reasoning.value in m.reasoning
    ensures PointFor(r, m, reasoning) in RunnerPoints(r, models)
  {
    if m == models[0] {
      if reasoning.Some? {
        var i :| 0 <= i < |m.reasoning| && m.reasoning[i] == reasoning.value;
        assert Reasoned(r, m, m.reasoning)[i] == PointFor(r, m, reasoning);
      }
      assert PointFor(r, m, reasoning) in ModelPoints(r, m);
    } else {
      SettingHasPoint(r, models[1..], m, reasoning);
    }
  }

  lemma {:induction false} PointIn(runners: seq<Runner>, r: Runner, m: Model, reasoning: Option<string>)
    requires r in runners && m in r.models && if reasoning.None? then m.reasoning == [] else reasoning.value in m.reasoning
    ensures PointFor(r, m, reasoning) in GeneratePoints(runners)
  {
    if r == runners[0] {
      SettingHasPoint(r, r.models, m, reasoning);
    } else {
      PointIn(runners[1..], r, m, reasoning);
    }
  }

  /** What follows the runner in an id. */
  function Suffix(m: Model, reasoning: Option<string>): string {
    if reasoning.None? then m.model else m.model + ":" + reasoning.value
  }

  lemma SameIdSameRunner(runners: seq<Runner>, r: Runner, m: Model, x: Option<string>, q: Runner, n: Model, y: Option<string>)
    requires Reviewed(runners) && WordsHaveNoColon(runners) && r in runners && q in runners
    requires PointFor(r, m, x).id == PointFor(q, n, y).id
    ensures r == q && Suffix(m, x) == Suffix(n, y)
  {
    assert PointFor(r, m, x).id == r.kind + ":" + Suffix(m, x);
    assert PointFor(q, n, y).id == q.kind + ":" + Suffix(n, y);
    SplitsFirst(':', r.kind, Suffix(m, x), q.kind, Suffix(n, y));
    FindsRunner(runners, r);
    FindsRunner(runners, q);
  }

  lemma SameIdSamePoint(runners: seq<Runner>, p: Point, q: Point)
    requires Reviewed(runners) && WordsHaveNoColon(runners) && !Ambiguous(runners)
    requires p in GeneratePoints(runners) && q in GeneratePoints(runners) && p.id == q.id
    ensures p == q
  {
    var r, m, x := PointFrom(runners, p);
    var k, n, y := PointFrom(runners, q);
    SameIdSameRunner(runners, r, m, x, k, n, y);
    assert ReviewedRunner(r);
    FindsModel(r.models, m);
    FindsModel(r.models, n);
    if x.Some? && y.Some? {
      ColonSplitsLast(m.model, x.value, n.model, y.value);
    }
  }

  lemma AmbiguousCollide(runners: seq<Runner>) returns (p: Point, q: Point)
    requires Ambiguous(runners)
    ensures p in GeneratePoints(runners) && q in GeneratePoints(runners) && p.id == q.id && p != q
  {
    var r, m, n, s :| r in runners && m in r.models && n in r.models && m.reasoning == [] && s in n.reasoning && m.model == n.model + ":" + s;
    p, q := PointFor(r, m, None), PointFor(r, n, Some(s));
    PointIn(runners, r, m, None);
    PointIn(runners, r, n, Some(s));
    Colons(r.kind, n.model, s);
  }

  lemma Colons(a: string, b: string, c: string)
    ensures a + ":" + b + ":" + c == a + ":" + (b + ":" + c)
  {
  }

  /** Ids tell generated points apart exactly when no bare model name reads as another model with a setting. */
  lemma IdsTellPointsApartIff(runners: seq<Runner>)
    requires Reviewed(runners) && WordsHaveNoColon(runners)
    ensures (forall p, q :: p in GeneratePoints(runners) && q in GeneratePoints(runners) && p.id == q.id ==> p == q) <==> !Ambiguous(runners)
  {
    if Ambiguous(runners) {
      var p, q := AmbiguousCollide(runners);
    } else {
      forall p, q | p in GeneratePoints(runners) && q in GeneratePoints(runners) && p.id == q.id ensures p == q {
        SameIdSamePoint(runners, p, q);
      }
    }
  }

  /** The input: a bare `haiku:high` beside `haiku` with the setting `high`. */
  function HaikuCatalog(kind: string, quota: QuotaKey): seq<Runner> {
    [Runner(kind, [Model("haiku:high", None, None, None, []), Model("haiku", None, None, None, ["high"])], quota)]
  }

  lemma HaikuIsReviewed(kind: string, quota: QuotaKey)
    requires ':' !in kind && KeyHasNoNul(quota)
    ensures Reviewed(HaikuCatalog(kind, quota)) && WordsHaveNoColon(HaikuCatalog(kind, quota))
  {
    var r := HaikuCatalog(kind, quota)[0];
    assert "" == Given(r.models[0].provider, "") && r.models[0].model[5] == ':';
  }

  /** It passes the catalog's own checks, and two of its points share an id. */
  lemma HaikuCollides(kind: string, quota: QuotaKey)
    requires ':' !in kind && KeyHasNoNul(quota)
    ensures Reviewed(HaikuCatalog(kind, quota)) && WordsHaveNoColon(HaikuCatalog(kind, quota))
    ensures Ambiguous(HaikuCatalog(kind, quota))
    ensures exists p, q :: p in GeneratePoints(HaikuCatalog(kind, quota)) && q in GeneratePoints(HaikuCatalog(kind, quota)) && p.id == q.id && p != q
  {
    var r := HaikuCatalog(kind, quota)[0];
    var m, n := r.models[0], r.models[1];
    assert r in HaikuCatalog(kind, quota) && m in r.models && n in r.models && n.reasoning[0] == "high" && "high" in n.reasoning;
    assert m.model == n.model + ":" + "high";
    HaikuIsReviewed(kind, quota);
    var p, q := AmbiguousCollide(HaikuCatalog(kind, quota));
  }

  // ---- Availability ----------------------------------------------------------------------------------

  const QUOTA_COOLDOWN_MS := 900_000
  const EVIDENCE_WINDOW_MS := 900_000

  datatype FailureClass = QuotaFailure | TransportFailure | OtherFailure

  datatype Record = Record(key: QuotaKey, failure: FailureClass, at: int, retryNotBefore: Option<int>)

  datatype Status = Unknown | Degraded | LocalCapacityLimited | KnownExhausted

  datatype Availability = Availability(status: Status, retryNotBefore: Option<int>)

  function CooldownExpiry(r: Record): int {
    if r.retryNotBefore.Some? then r.retryNotBefore.value else r.at + QUOTA_COOLDOWN_MS
  }

  function Matching(records: seq<Record>, key: QuotaKey): seq<Record> {
    if records == [] then [] else (if records[0].key == key then [records[0]] else []) + Matching(records[1..], key)
  }

  predicate IsActiveQuota(r: Record, now: int) {
    r.failure == QuotaFailure && CooldownExpiry(r) > now
  }

  predicate IsRecent(r: Record, now: int) {
    now - r.at < EVIDENCE_WINDOW_MS
  }

  function LatestSignal(records: seq<Record>, now: int): Option<int> {
    if records == [] then None
    else
      var later := LatestSignal(records[1..], now);
      if !IsActiveQuota(records[0], now) || records[0].retryNotBefore.None? then later
      else if later.Some? && later.value > records[0].retryNotBefore.value then later
      else records[0].retryNotBefore
  }

  /** `records` is None for an unreadable log. */
  function AvailabilityOf(key: QuotaKey, records: Option<seq<Record>>, now: int): Availability {
    if records.None? then Availability(Unknown, None)
    else
      var ms := Matching(records.value, key);
      if exists i :: 0 <= i < |ms| && IsActiveQuota(ms[i], now) then Availability(KnownExhausted, LatestSignal(ms, now))
      else if exists i :: 0 <= i < |ms| && IsRecent(ms[i], now) && ms[i].failure == TransportFailure then Availability(LocalCapacityLimited, None)
      else if exists i :: 0 <= i < |ms| && IsRecent(ms[i], now) then Availability(Degraded, None)
      else Availability(Unknown, None)
  }

  lemma {:induction false} MatchingAre(records: seq<Record>, key: QuotaKey, r: Record)
    ensures r in Matching(records, key) <==> r in records && r.key == key
  {
    if records != [] {
      MatchingAre(records[1..], key, r);
    }
  }

  lemma {:induction false} SignalIsFuture(records: seq<Record>, now: int)
    ensures LatestSignal(records, now).Some? ==> LatestSignal(records, now).value > now
    ensures LatestSignal(records, now).Some? ==> exists r :: r in records && r.failure == QuotaFailure && r.retryNotBefore == LatestSignal(records, now)
    ensures forall r :: r in records && IsActiveQuota(r, now) && r.retryNotBefore.Some? ==>
              LatestSignal(records, now).Some? && r.retryNotBefore.value <= LatestSignal(records, now).value
  {
    if records != [] {
      SignalIsFuture(records[1..], now);
      if LatestSignal(records, now).Some? && LatestSignal(records, now) == LatestSignal(records[1..], now) {
        var r :| r in records[1..] && r.failure == QuotaFailure && r.retryNotBefore == LatestSignal(records[1..], now);
        assert r in records;
      }
      assert records[0] in records;
    }
  }

  /**
   Known-exhausted means exactly an active quota failure of this key; a retry time is never made up:
   it is the latest of the active signals, and lies ahead. No evidence is never exhaustion.
   */
  lemma ExhaustedIff(key: QuotaKey, records: Option<seq<Record>>, now: int)
    ensures var a := AvailabilityOf(key, records, now);
            && (a.status == KnownExhausted <==> records.Some? && exists r :: r in records.value && r.key == key && IsActiveQuota(r, now))
            && (a.retryNotBefore.Some? ==> a.status == KnownExhausted && a.retryNotBefore.value > now)
            && (a.retryNotBefore.Some? ==> exists r :: r in records.value && r.key == key && r.retryNotBefore == a.retryNotBefore)
            && (a.status == LocalCapacityLimited ==> exists r :: r in records.value && r.key == key && r.failure == TransportFailure && IsRecent(r, now))
  {
    if records.Some? {
      var ms := Matching(records.value, key);
      forall r ensures r in ms <==> r in records.value && r.key == key {
        MatchingAre(records.value, key, r);
      }
      SignalIsFuture(ms, now);
    }
  }

  // ---- The walk ---------------------------------------------------------------------------------------

  /** What the gate says of a runner and a model; None where it throws. */
  type Gate = (string, string) -> Option<Status>

  datatype Fault = NoRunner | GateFailed

  datatype Why = Unavailable | RecoveryExcluded

  datatype Exclusion = Exclusion(id: string, provider: string, why: Why)

  datatype Walk = Walk(available: seq<Point>, exclusions: seq<Exclusion>, statuses: seq<(string, Status)>,
                       exhausted: set<string>, local: set<string>, fault: Option<Fault>)

  predicate Usable(s: Status) {
    s.Unknown? || s.Degraded?
  }

  predicate Skipped(w: Walk, p: Point) {
    QuotaIdentity(p.quota) in w.exhausted || p.runner in w.local
  }

  function Excluding(w: Walk, p: Point): Walk {
    w.(exclusions := w.exclusions + [Exclusion(p.id, p.provider, Unavailable)])
  }

  function Judged(w: Walk, p: Point, status: Status): Walk {
    var v := w.(statuses := w.statuses + [(p.id, status)],
                exhausted := if status.KnownExhausted? then w.exhausted + {QuotaIdentity(p.quota)} else w.exhausted,
                local := if status.LocalCapacityLimited? then w.local + {p.runner} else w.local);
    if Usable(status) then v.(available := v.available + [p]) else Excluding(v, p)
  }

  function Step(w: Walk, p: Point, runners: seq<Runner>, gate: Gate): Walk {
    if w.fault.Some? then w
    else if Skipped(w, p) then Excluding(w, p)
    else if FindRunner(runners, p.runner).None? then w.(fault := Some(NoRunner))
    else
      var status := gate(p.runner, p.model);
      if status.None? then w.(fault := Some(GateFailed)) else Judged(w, p, status.value)
  }

  function WalkFrom(w: Walk, ps: seq<Point>, runners: seq<Runner>, gate: Gate): Walk
    decreases |ps|
  {
    if ps == [] then w else WalkFrom(Step(w, ps[0], runners, gate), ps[1..], runners, gate)
  }

  function Begin(exclusions: seq<Exclusion>): Walk {
    Walk([], exclusions, [], {}, {}, None)
  }

  method WalkCandidates(ps: seq<Point>, runners: seq<Runner>, gate: Gate, already: seq<Exclusion>) returns (w: Walk)
    ensures w == WalkFrom(Begin(already), ps, runners, gate)
  {
    var available: seq<Point>, exclusions, statuses: seq<(string, Status)> := [], already, [];
    var exhausted: set<string>, local: set<string> := {}, {};
    for i := 0 to |ps|
      invariant WalkFrom(Walk(available, exclusions, statuses, exhausted, local, None), ps[i..], runners, gate) == WalkFrom(Begin(already), ps, runners, gate)
    {
      var p := ps[i];
      assert ps[i..][1..] == ps[i + 1..];
      if QuotaIdentity(p.quota) in exhausted || p.runner in local {
        exclusions := exclusions + [Exclusion(p.id, p.provider, Unavailable)];
        continue;
      }
      if FindRunner(runners, p.runner).None? {
        w := Walk(available, exclusions, statuses, exhausted, local, Some(NoRunner));
        FaultStays(w, ps[i + 1..], runners, gate);
        return;
      }
      var status := gate(p.runner, p.model);
      if status.None? {
        w := Walk(available, exclusions, statuses, exhausted, local, Some(GateFailed));
        FaultStays(w, ps[i + 1..], runners, gate);
        return;
      }
      statuses := statuses + [(p.id, status.value)];
      if status.value.KnownExhausted? {
        exhausted := exhausted + {QuotaIdentity(p.quota)};
      }
      if status.value.LocalCapacityLimited? {
        local := local + {p.runner};
      }
      if status.value.KnownExhausted? || status.value.LocalCapacityLimited? {
        exclusions := exclusions + [Exclusion(p.id, p.provider, Unavailable)];
        continue;
      }
      available := available + [p];
    }
    w := Walk(available, exclusions, statuses, exhausted, local, None);
  }

  lemma {:induction false} FaultStays(w: Walk, ps: seq<Point>, runners: seq<Runner>, gate: Gate)
    requires w.fault.Some?
    ensures WalkFrom(w, ps, runners, gate) == w
    decreases |ps|
  {
    if ps != [] {
      FaultStays(w, ps[1..], runners, gate);
    }
  }

  // ---- Skipping agrees with probing -----------------------------------------------------------------------

  function StatusOf(p: Point, gate: Gate): Status {
    var s := gate(p.runner, p.model);
    if s.Some? then s.value else Unknown
  }

  /** Nothing goes wrong: every runner is known, and the gate answers. */
  ghost predicate Answers(ps: seq<Point>, runners: seq<Runner>, gate: Gate) {
    forall p :: p in ps ==> FindRunner(runners, p.runner).Some? && gate(p.runner, p.model).Some?
  }

  /** The answer depends on the quota identity alone. */
  ghost predicate KeyDecides(ps: seq<Point>, gate: Gate) {
    forall p, q :: p in ps && q in ps && QuotaIdentity(p.quota) == QuotaIdentity(q.quota) ==> StatusOf(p, gate) == StatusOf(q, gate)
  }

  /** Found usable by probing it, and its runner not found limited by probing an earlier candidate. */
  predicate Keeps(earlier: seq<Point>, p: Point, gate: Gate) {
    Usable(StatusOf(p, gate)) && forall i :: 0 <= i < |earlier| && earlier[i].runner == p.runner ==> StatusOf(earlier[i], gate) != LocalCapacityLimited
  }

  /** The reference: every candidate is probed. */
  function Kept(ps: seq<Point>, gate: Gate): seq<Point> {
    if ps == [] then [] else Kept(ps[..|ps| - 1], gate) + if Keeps(ps[..|ps| - 1], ps[|ps| - 1], gate) then [ps[|ps| - 1]] else []
  }

  function LeftOut(ps: seq<Point>, gate: Gate): seq<Point> {
    if ps == [] then [] else LeftOut(ps[..|ps| - 1], gate) + if Keeps(ps[..|ps| - 1], ps[|ps| - 1], gate) then [] else [ps[|ps| - 1]]
  }

  function AsExclusions(ps: seq<Point>, why: Why): (es: seq<Exclusion>)
    ensures |es| == |ps| && forall i :: 0 <= i < |es| ==> es[i] == Exclusion(ps[i].id, ps[i].provider, why)
  {
    if ps == [] then [] else [Exclusion(ps[0].id, ps[0].provider, why)] + AsExclusions(ps[1..], why)
  }

  ghost predicate Remembers(w: Walk, ps: seq<Point>, gate: Gate) {
    && (forall x :: x in w.exhausted ==> exists p :: p in ps && StatusOf(p, gate) == KnownExhausted && x == QuotaIdentity(p.quota))
    && (forall r :: r in w.local <==> exists p :: p in ps && StatusOf(p, gate) == LocalCapacityLimited && r == p.runner)
  }

  ghost predicate WalkIs(w: Walk, ps: seq<Point>, gate: Gate, already: seq<Exclusion>) {
    && w.fault.None? && Remembers(w, ps, gate)
    && w.available == Kept(ps, gate) && w.exclusions == already + AsExclusions(LeftOut(ps, gate), Unavailable)
  }

  lemma {:induction false} WalkAppends(w: Walk, ps: seq<Point>, p: Point, runners: seq<Runner>, gate: Gate)
    ensures WalkFrom(w, ps + [p], runners, gate) == Step(WalkFrom(w, ps, runners, gate), p, runners, gate)
    decreases |ps|
  {
    if ps == [] {
      assert ([] + [p])[1..] == [];
    } else {
      assert (ps + [p])[1..] == ps[1..] + [p];
      WalkAppends(Step(w, ps[0], runners, gate), ps[1..], p, runners, gate);
    }
  }

  lemma RemembersMore(w: Walk, v: Walk, ps: seq<Point>, p: Point, gate: Gate)
    requires Remembers(w, ps, gate)
    requires w.exhausted <= v.exhausted <= w.exhausted + if StatusOf(p, gate) == KnownExhausted then {QuotaIdentity(p.quota)} else {}
    requires v.local == w.local + if StatusOf(p, gate) == LocalCapacityLimited then {p.runner} else {}
    ensures Remembers(v, ps + [p], gate)
  {
    var all := ps + [p];
    assert p in all && forall q :: q in ps ==> q in all;
    forall x | x in v.exhausted ensures exists q :: q in all && StatusOf(q, gate) == KnownExhausted && x == QuotaIdentity(q.quota) {
      if x in w.exhausted {
        var q :| q in ps && StatusOf(q, gate) == KnownExhausted && x == QuotaIdentity(q.quota);
        assert q in all;
      }
    }
    forall r ensures r in v.local <==> exists q :: q in all && StatusOf(q, gate) == LocalCapacityLimited && r == q.runner {
      if r in w.local {
        var q :| q in ps && StatusOf(q, gate) == LocalCapacityLimited && r == q.runner;
        assert q in all;
      }
    }
  }

  lemma KeptAppends(ps: seq<Point>, p: Point, gate: Gate)
    ensures Kept(ps + [p], gate) == Kept(ps, gate) + if Keeps(ps, p, gate) then [p] else []
    ensures LeftOut(ps + [p], gate) == LeftOut(ps, gate) + if Keeps(ps, p, gate) then [] else [p]
  {
    assert (ps + [p])[..|ps|] == ps;
  }

  lemma {:induction false} ExclusionsAppend(ps: seq<Point>, p: Point, why: Why)
    ensures AsExclusions(ps + [p], why) == AsExclusions(ps, why) + [Exclusion(p.id, p.provider, why)]
  {
  }

  lemma StepIs(w: Walk, ps: seq<Point>, p: Point, runners: seq<Runner>, gate: Gate, already: seq<Exclusion>)
    requires WalkIs(w, ps, gate, already) && KeyDecides(ps + [p], gate)
    requires FindRunner(runners, p.runner).Some? && gate(p.runner, p.model).Some?
    ensures WalkIs(Step(w, p, runners, gate), ps + [p], gate, already)
  {
    if Skipped(w, p) {
      SkippedStep(w, ps, p, gate, already);
    } else {
      JudgedStep(w, ps, p, gate, already);
    }
  }

  lemma SkippedStep(w: Walk, ps: seq<Point>, p: Point, gate: Gate, already: seq<Exclusion>)
    requires WalkIs(w, ps, gate, already) && KeyDecides(ps + [p], gate) && Skipped(w, p)
    ensures WalkIs(Excluding(w, p), ps + [p], gate, already)
  {
    LeftOutMore(w, ps, p, gate, already);
    RemembersMore(w, Excluding(w, p), ps, p, gate);
  }

  lemma LeftOutMore(w: Walk, ps: seq<Point>, p: Point, gate: Gate, already: seq<Exclusion>)
    requires w.exclusions == already + AsExclusions(LeftOut(ps, gate), Unavailable) && !Keeps(ps, p, gate)
    ensures Excluding(w, p).exclusions == already + AsExclusions(LeftOut(ps + [p], gate), Unavailable)
    ensures Kept(ps + [p], gate) == Kept(ps, gate)
  {
    KeptAppends(ps, p, gate);
    ExclusionsAppend(LeftOut(ps, gate), p, Unavailable);
  }

  lemma JudgedStep(w: Walk, ps: seq<Point>, p: Point, gate: Gate, already: seq<Exclusion>)
    requires WalkIs(w, ps, gate, already) && !Skipped(w, p)
    ensures WalkIs(Judged(w, p, StatusOf(p, gate)), ps + [p], gate, already)
  {
    RemembersMore(w, Judged(w, p, StatusOf(p, gate)), ps, p, gate);
    if Usable(StatusOf(p, gate)) {
      KeptMore(w, ps, p, gate, already);
    } else {
      LeftOutMore(w, ps, p, gate, already);
    }
  }

  lemma KeptMore(w: Walk, ps: seq<Point>, p: Point, gate: Gate, already: seq<Exclusion>)
    requires w.available == Kept(ps, gate) && Keeps(ps, p, gate)
    ensures w.available + [p] == Kept(ps + [p], gate) && LeftOut(ps + [p], gate) == LeftOut(ps, gate)
  {
    KeptAppends(ps, p, gate);
  }

  /**
   Skipping quotas already found exhausted gives the same chain, and the same exclusions, as probing
   every candidate.
   */
  lemma {:induction false} SkippingAgreesWithProbing(ps: seq<Point>, runners: seq<Runner>, gate: Gate, already: seq<Exclusion>)
    requires Answers(ps, runners, gate) && KeyDecides(ps, gate)
    ensures WalkIs(WalkFrom(Begin(already), ps, runners, gate), ps, gate, already)
  {
    if ps == [] {
    } else {
      var init, p := ps[..|ps| - 1], ps[|ps| - 1];
      assert ps == init + [p];
      assert forall q :: q in init ==> q in ps;
      assert p in ps;
      SkippingAgreesWithProbing(init, runners, gate, already);
      WalkAppends(Begin(already), init, p, runners, gate);
      StepIs(WalkFrom(Begin(already), init, runners, gate), init, p, runners, gate, already);
    }
  }

  // ---- The gate in use ------------------------------------------------------------------------------------

  function GateOf(runners: seq<Runner>, records: Option<seq<Record>>, now: int): Gate {
    (kind: string, model: string) =>
      var r := FindRunner(runners, kind);
      if r.None? then None else Some(AvailabilityOf(QuotaKeyFor(model, r.value), records, now).status)
  }

  /** For generated points, with fixed records and a fixed clock, the answer depends on the quota identity alone. */
  lemma GeneratedPointsDecideByKey(runners: seq<Runner>, records: Option<seq<Record>>, now: int, ps: seq<Point>)
    requires Reviewed(runners) && forall p :: p in ps ==> p in GeneratePoints(runners)
    ensures Answers(ps, runners, GateOf(runners, records, now)) && KeyDecides(ps, GateOf(runners, records, now))
    ensures forall p :: p in ps ==> StatusOf(p, GateOf(runners, records, now)) == AvailabilityOf(p.quota, records, now).status
  {
    var gate := GateOf(runners, records, now);
    forall p | p in ps
      ensures FindRunner(runners, p.runner).Some? && gate(p.runner, p.model).Some? && KeyHasNoNul(p.quota)
      ensures StatusOf(p, gate) == AvailabilityOf(p.quota, records, now).status
    {
      GeneratedQuota(runners, p);
    }
    forall p, q | p in ps && q in ps && QuotaIdentity(p.quota) == QuotaIdentity(q.quota) ensures StatusOf(p, gate) == StatusOf(q, gate) {
      QuotaIdentityIsInjective(p.quota, q.quota);
    }
  }

  lemma GeneratedWalkIsProbing(runners: seq<Runner>, records: Option<seq<Record>>, now: int, ps: seq<Point>, already: seq<Exclusion>)
    requires Reviewed(runners) && forall p :: p in ps ==> p in GeneratePoints(runners)
    ensures var gate := GateOf(runners, records, now);
            var w := WalkFrom(Begin(already), ps, runners, gate);
            w.fault.None? && w.available == Kept(ps, gate) && w.exclusions == already + AsExclusions(LeftOut(ps, gate), Unavailable)
  {
    GeneratedPointsDecideByKey(runners, records, now, ps);
    SkippingAgreesWithProbing(ps, runners, GateOf(runners, records, now), already);
  }

  // ---- Each candidate once, in order -------------------------------------------------------------------------

  predicate IsSubsequence<T(==)>(a: seq<T>, b: seq<T>)
    decreases |b|
  {
    a == [] || (b != [] && ((a[|a| - 1] == b[|b| - 1] && IsSubsequence(a[..|a| - 1], b[..|b| - 1])) || IsSubsequence(a, b[..|b| - 1])))
  }

  lemma Extends(a: seq<string>, b: seq<string>, x: string)
    requires IsSubsequence(a, b)
    ensures IsSubsequence(a, b + [x]) && IsSubsequence(a + [x], b + [x])
  {
    assert (b + [x])[..|b|] == b && (a + [x])[..|a|] == a;
  }

  lemma {:induction false} SubsequenceIsTransitive(a: seq<string>, b: seq<string>, c: seq<string>)
    requires IsSubsequence(a, b) && IsSubsequence(b, c)
    ensures IsSubsequence(a, c)
    decreases |c|
  {
    if a != [] {
      var a1, b1, c1 := a[..|a| - 1], b[..|b| - 1], c[..|c| - 1];
      if IsSubsequence(b, c1) {
        SubsequenceIsTransitive(a, b, c1);
      } else if a[|a| - 1] == b[|b| - 1] && IsSubsequence(a1, b1) {
        SubsequenceIsTransitive(a1, b1, c1);
      } else {
        SubsequenceIsTransitive(a, b1, c1);
      }
    }
  }

  /** Each of `all` is in just one of two lists, and both keep its order. */
  ghost predicate Splits(a: seq<string>, b: seq<string>, all: seq<string>) {
    multiset(a) + multiset(b) == multiset(all) && IsSubsequence(a, all) && IsSubsequence(b, all)
  }

  lemma SplitsMore(a: seq<string>, b: seq<string>, all: seq<string>, x: string)
    requires Splits(a, b, all)
    ensures Splits(a + [x], b, all + [x]) && Splits(a, b + [x], all + [x])
  {
    assert multiset(a + [x]) == multiset(a) + multiset{x};
    assert multiset(b + [x]) == multiset(b) + multiset{x};
    assert multiset(all + [x]) == multiset(all) + multiset{x};
    Extends(a, all, x);
    Extends(b, all, x);
  }

  /** The points a bare filter would keep: everything usable. */
  function UsablePoints(ps: seq<Point>, gate: Gate): seq<Point> {
    if ps == [] then [] else UsablePoints(ps[..|ps| - 1], gate) + if Usable(StatusOf(ps[|ps| - 1], gate)) then [ps[|ps| - 1]] else []
  }

  /** Some candidate is usable although an earlier one showed its runner to be limited. */
  ghost predicate RunnerLimitBites(ps: seq<Point>, gate: Gate) {
    exists i, j :: 0 <= i < j < |ps| && ps[i].runner == ps[j].runner && StatusOf(ps[i], gate) == LocalCapacityLimited && Usable(StatusOf(ps[j], gate))
  }

  lemma BitesMore(init: seq<Point>, p: Point, gate: Gate)
    ensures RunnerLimitBites(init + [p], gate) <==> RunnerLimitBites(init, gate) || (Usable(StatusOf(p, gate)) && !Keeps(init, p, gate))
  {
    var ps := init + [p];
    if RunnerLimitBites(init, gate) {
      var i, j :| 0 <= i < j < |init| && init[i].runner == init[j].runner && StatusOf(init[i], gate) == LocalCapacityLimited && Usable(StatusOf(init[j], gate));
      assert ps[i] == init[i] && ps[j] == init[j];
    }
    if Usable(StatusOf(p, gate)) && !Keeps(init, p, gate) {
      var i :| 0 <= i < |init| && init[i].runner == p.runner && StatusOf(init[i], gate) == LocalCapacityLimited;
      assert ps[i] == init[i] && ps[|init|] == p;
    }
    if RunnerLimitBites(ps, gate) && !RunnerLimitBites(init, gate) {
      var i, j :| 0 <= i < j < |ps| && ps[i].runner == ps[j].runner && StatusOf(ps[i], gate) == LocalCapacityLimited && Usable(StatusOf(ps[j], gate));
      assert forall k :: 0 <= k < |init| ==> ps[k] == init[k];
      assert ps[|init|] == p;
    }
  }

  /**
   The one difference from a bare filter is the limit of a runner: once a candidate shows its runner to
   be limited, later candidates of that runner go unprobed, whatever their own quota.
   */
  lemma {:induction false} BareFilterIff(ps: seq<Point>, gate: Gate)
    ensures |Kept(ps, gate)| <= |UsablePoints(ps, gate)|
    ensures Kept(ps, gate) == UsablePoints(ps, gate) <==> !RunnerLimitBites(ps, gate)
    ensures RunnerLimitBites(ps, gate) ==> |Kept(ps, gate)| < |UsablePoints(ps, gate)|
  {
    if ps != [] {
      var init, p := ps[..|ps| - 1], ps[|ps| - 1];
      assert ps == init + [p];
      BareFilterIff(init, gate);
      BitesMore(init, p, gate);
    }
  }

  /**
   The input: two candidates of one runner under two quotas; the first shows the runner limited, and
   the second, which would be usable, is left out.
   */
  lemma LimitSilencesAnother(p: Point, q: Point, gate: Gate)
    requires p.runner == q.runner && StatusOf(p, gate) == LocalCapacityLimited && Usable(StatusOf(q, gate))
    ensures Kept([p, q], gate) == [] && UsablePoints([p, q], gate) == [q]
    ensures LeftOut([p, q], gate) == [p, q]
  {
    assert [p, q][..1] == [p] && [p][..0] == [];
    assert Kept([p], gate) == Kept([], gate) + [] && UsablePoints([p], gate) == UsablePoints([], gate) + [];
    assert LeftOut([p], gate) == LeftOut([], gate) + [p];
  }

  /** One runner with two models under two providers. */
  function TwoQuotas(): seq<Runner> {
    [Runner("r", [Model("m", Some("x"), None, None, []), Model("n", Some("y"), None, None, [])], KEY)]
  }

  function QuotaOf(provider: string): QuotaKey {
    QuotaKey(provider, "y", "z", "s")
  }

  lemma TwoQuotasGenerate()
    ensures Reviewed(TwoQuotas())
    ensures GeneratePoints(TwoQuotas()) == [Point("r:m", "r", "m", None, "x", QuotaOf("x")), Point("r:n", "r", "n", None, "y", QuotaOf("y"))]
  {
    var r := TwoQuotas()[0];
    var m, n := r.models[0], r.models[1];
    assert m.model[0] != n.model[0];
    assert r.models[1..] == [n] && [n][1..] == [] && TwoQuotas()[1..] == [];
    assert RunnerPoints(r, [n]) == ModelPoints(r, n) + RunnerPoints(r, []);
    assert RunnerPoints(r, r.models) == ModelPoints(r, m) + RunnerPoints(r, [n]);
    assert GeneratePoints(TwoQuotas()) == RunnerPoints(r, r.models) + GeneratePoints([]);
    assert BareId("r", "m") == "r:m" && BareId("r", "n") == "r:n";
  }

  /**
   The input in a catalog and a log: one transport failure of the first model, and the walk leaves out
   the second too, of which nothing is recorded.
   */
  lemma OneFailureSilencesTheRunner()
    ensures var ps := GeneratePoints(TwoQuotas());
            var gate := GateOf(TwoQuotas(), Some([Record(QuotaOf("x"), TransportFailure, 0, None)]), 0);
            && |ps| == 2 && WalkFrom(Begin([]), ps, TwoQuotas(), gate).available == [] && UsablePoints(ps, gate) == [ps[1]]
  {
    var ps, records := GeneratePoints(TwoQuotas()), Some([Record(QuotaOf("x"), TransportFailure, 0, None)]);
    var gate := GateOf(TwoQuotas(), records, 0);
    TwoQuotasGenerate();
    GeneratedPointsDecideByKey(TwoQuotas(), records, 0, ps);
    assert ps[0] in ps && ps[1] in ps;
    FailureIsItsOwn(records.value[0]);
    GeneratedWalkIsProbing(TwoQuotas(), records, 0, ps, []);
    LimitSilencesAnother(ps[0], ps[1], gate);
    assert ps == [ps[0], ps[1]];
  }

  lemma FailureIsItsOwn(r: Record)
    requires r == Record(QuotaOf("x"), TransportFailure, 0, None)
    ensures AvailabilityOf(QuotaOf("x"), Some([r]), 0).status == LocalCapacityLimited
    ensures AvailabilityOf(QuotaOf("y"), Some([r]), 0).status == Unknown
  {
    assert [r][1..] == [];
    assert QuotaOf("x").provider[0] != QuotaOf("y").provider[0];
    assert Matching([r], QuotaOf("x")) == [r] && Matching([r], QuotaOf("y")) == [];
  }

  // ---- The route -----------------------------------------------------------------------------------------------

  const TIERS: seq<R.Tier> := [R.Utility, R.Economy, R.Standard, R.Strong, R.Frontier, R.Max]

  function MaxTier(a: R.Tier, b: R.Tier): R.Tier {
    if R.TierRank(a) >= R.TierRank(b) then a else b
  }

  function NextTier(t: R.Tier): R.Tier {
    TIERS[if R.TierRank(t) + 1 < 5 then R.TierRank(t) + 1 else 5]
  }

  /** The floor, raised by a request by at most one tier, and by a recovery minimum without bound. */
  function EffectiveStart(floor: R.Tier, requested: Option<R.Tier>, minimum: Option<R.Tier>): R.Tier {
    var cap := NextTier(floor);
    var start := if requested.None? then floor else MaxTier(floor, if R.TierRank(requested.value) <= R.TierRank(cap) then requested.value else cap);
    if minimum.None? then start else MaxTier(start, minimum.value)
  }

  lemma EffectiveStartIsBounded(floor: R.Tier, requested: Option<R.Tier>, minimum: Option<R.Tier>)
    ensures var rank, start := R.TierRank, EffectiveStart(floor, requested, minimum);
            && rank(floor) <= rank(start)
            && (minimum.Some? ==> rank(minimum.value) <= rank(start))
            && (rank(start) <= rank(floor) + 1 || minimum == Some(start))
            && (requested.Some? && rank(floor) <= rank(requested.value) <= rank(floor) + 1 ==> rank(requested.value) <= rank(start))
  {
  }

  datatype Recovery = Recovery(priorPoint: string, priorTier: R.Tier, providerLimit: bool)

  datatype Compiled = Configured | BadSelection | NoConfiguration

  datatype Task = Task(points: seq<Point>, runners: seq<Runner>, chains: Option<map<R.Tier, seq<string>>>, floor: R.Tier,
                       requested: Option<R.Tier>, recovery: Option<Recovery>, hasGate: bool, pinned: Option<string>)

  datatype Code = CatalogUnavailable | NoCandidatesAtTier | TransportFailed | InvalidResponse

  datatype Decision =
    | Abstain(code: Code, detail: string, exclusions: seq<Exclusion>)
    | Admitted(chain: seq<string>, selected: Point, tier: R.Tier, exclusions: seq<Exclusion>)

  function Minimum(t: Task): Option<R.Tier> {
    if t.recovery.None? then None
    else if t.recovery.value.providerLimit then Some(t.recovery.value.priorTier) else Some(NextTier(t.recovery.value.priorTier))
  }

  function StartOf(t: Task): R.Tier {
    EffectiveStart(t.floor, t.requested, Minimum(t))
  }

  function ChainsFrom(chains: map<R.Tier, seq<string>>, tiers: seq<R.Tier>): seq<string> {
    if tiers == [] then [] else (if tiers[0] in chains then chains[tiers[0]] else []) + ChainsFrom(chains, tiers[1..])
  }

  /** `[...new Set(ids)]`: first occurrences, in order. */
  function Dedup(ids: seq<string>): seq<string> {
    if ids == [] then [] else Dedup(ids[..|ids| - 1]) + if ids[|ids| - 1] in ids[..|ids| - 1] then [] else [ids[|ids| - 1]]
  }

  /** The authored candidates: the chains of the effective tier and up. */
  function Authored(t: Task): seq<string>
    requires t.chains.Some?
  {
    Dedup(ChainsFrom(t.chains.value, TIERS[R.TierRank(StartOf(t))..]))
  }

  /** `new Map(...)`: the last point with an id. */
  function PointById(points: seq<Point>, id: string): (p: Option<Point>)
    ensures p.Some? ==> p.value.id == id && p.value in points
  {
    if points == [] then None
    else if points[|points| - 1].id == id then Some(points[|points| - 1])
    else PointById(points[..|points| - 1], id)
  }

  predicate AllKnown(points: seq<Point>, ids: seq<string>) {
    forall i :: 0 <= i < |ids| ==> PointById(points, ids[i]).Some?
  }

  function PointsOf(points: seq<Point>, ids: seq<string>): (ps: seq<Point>)
    requires AllKnown(points, ids)
    ensures |ps| == |ids| && forall i :: 0 <= i < |ps| ==> ps[i].id == ids[i] && ps[i] in points
  {
    if ids == [] then [] else [PointById(points, ids[0]).value] + PointsOf(points, ids[1..])
  }

  function NotOf(ps: seq<Point>, provider: string): seq<Point> {
    if ps == [] then [] else NotOf(ps[..|ps| - 1], provider) + if ps[|ps| - 1].provider != provider then [ps[|ps| - 1]] else []
  }

  function Of(ps: seq<Point>, provider: string): seq<Point> {
    if ps == [] then [] else Of(ps[..|ps| - 1], provider) + if ps[|ps| - 1].provider != provider then [] else [ps[|ps| - 1]]
  }

  function Named(ps: seq<Point>, id: string): Option<Point> {
    if ps == [] then None else if ps[0].id == id then Some(ps[0]) else Named(ps[1..], id)
  }

  function IdsOf(ps: seq<Point>): (ids: seq<string>)
    ensures |ids| == |ps| && forall i :: 0 <= i < |ids| ==> ids[i] == ps[i].id
  {
    if ps == [] then [] else [ps[0].id] + IdsOf(ps[1..])
  }

  function ExcludedIds(es: seq<Exclusion>): (ids: seq<string>)
    ensures |ids| == |es| && forall i :: 0 <= i < |ids| ==> ids[i] == es[i].id
  {
    if es == [] then [] else [es[0].id] + ExcludedIds(es[1..])
  }

  function AllLocal(statuses: seq<(string, Status)>): bool {
    statuses != [] && forall i :: 0 <= i < |statuses| ==> statuses[i].1 == LocalCapacityLimited
  }

  /** What is decided once the candidates have been walked. */
  function Choose(t: Task, w: Walk, compile: Point -> Compiled): Decision {
    if w.fault == Some(NoRunner) then Abstain(CatalogUnavailable, "catalog", [])
    else if w.fault.Some? then Abstain(TransportFailed, "availability", [])
    else if w.available == [] then
      if AllLocal(w.statuses) then Abstain(TransportFailed, "availability", w.exclusions) else Abstain(NoCandidatesAtTier, "", w.exclusions)
    else
      var point := if t.pinned.None? then Some(w.available[0]) else Named(w.available, t.pinned.value);
      if point.None? then Abstain(NoCandidatesAtTier, "operatingPoint", w.exclusions)
      else
        match compile(point.value)
        case BadSelection => Abstain(InvalidResponse, "candidates", [])
        case NoConfiguration => Abstain(CatalogUnavailable, "configuration", [])
        case Configured => Admitted(if t.pinned.None? then IdsOf(w.available) else [point.value.id], point.value, StartOf(t), w.exclusions)
  }

  function Considered(t: Task, ps: seq<Point>, already: seq<Exclusion>, gate: Gate, compile: Point -> Compiled): Decision {
    if ps == [] then Abstain(NoCandidatesAtTier, "", already)
    else if !t.hasGate then Abstain(TransportFailed, "availability", [])
    else Choose(t, WalkFrom(Begin(already), ps, t.runners, gate), compile)
  }

  function Route(t: Task, gate: Gate, compile: Point -> Compiled): Decision {
    if t.chains.None? || t.points == [] || !AllKnown(t.points, Authored(t)) then Abstain(CatalogUnavailable, "tierChains", [])
    else
      var ps := PointsOf(t.points, Authored(t));
      if t.recovery.None? then Considered(t, ps, [], gate, compile)
      else
        var prior := PointById(t.points, t.recovery.value.priorPoint);
        if prior.None? then Abstain(CatalogUnavailable, "recovery", [])
        else Considered(t, NotOf(ps, prior.value.provider), AsExclusions(Of(ps, prior.value.provider), RecoveryExcluded), gate, compile)
  }

  method RouteTask(t: Task, gate: Gate, compile: Point -> Compiled) returns (d: Decision)
    ensures d == Route(t, gate, compile)
  {
    if t.chains.None? || |t.points| == 0 { return Abstain(CatalogUnavailable, "tierChains", []); }
    var ids := Authored(t);
    if !AllKnown(t.points, ids) { return Abstain(CatalogUnavailable, "tierChains", []); }
    var candidates := PointsOf(t.points, ids);
    var exclusions := [];
    if t.recovery.Some? {
      var prior := PointById(t.points, t.recovery.value.priorPoint);
      if prior.None? { return Abstain(CatalogUnavailable, "recovery", []); }
      exclusions := AsExclusions(Of(candidates, prior.value.provider), RecoveryExcluded);
      candidates := NotOf(candidates, prior.value.provider);
    }
    if |candidates| == 0 { return Abstain(NoCandidatesAtTier, "", exclusions); }
    if !t.hasGate { return Abstain(TransportFailed, "availability", []); }
    var w := WalkCandidates(candidates, t.runners, gate, exclusions);
    return Choose(t, w, compile);
  }

  // ---- What a route promises -------------------------------------------------------------------------------------

  lemma {:induction false} DedupKeepsEach(ids: seq<string>)
    ensures (forall id :: id in Dedup(ids) <==> id in ids) && forall i, j :: 0 <= i < j < |Dedup(ids)| ==> Dedup(ids)[i] != Dedup(ids)[j]
  {
    if ids != [] {
      var init, last := ids[..|ids| - 1], ids[|ids| - 1];
      assert ids == init + [last];
      DedupKeepsEach(init);
    }
  }

  lemma IdsOfMore(ps: seq<Point>, p: Point)
    ensures IdsOf(ps + [p]) == IdsOf(ps) + [p.id]
  {
  }

  lemma {:induction false} ExcludedIdsOfSum(a: seq<Exclusion>, b: seq<Exclusion>)
    ensures ExcludedIds(a + b) == ExcludedIds(a) + ExcludedIds(b)
  {
  }

  /** Each candidate is available or newly excluded, not both, in the given order. */
  ghost predicate Divides(w: Walk, ps: seq<Point>, already: seq<Exclusion>, es: seq<Exclusion>) {
    && w.exclusions == already + es && Splits(IdsOf(w.available), ExcludedIds(es), IdsOf(ps))
    && (forall p :: p in w.available ==> p in ps) && (forall e :: e in es ==> e.why == Unavailable)
  }

  lemma OneMoreAvailable(w: Walk, v: Walk, ps: seq<Point>, p: Point, already: seq<Exclusion>, es: seq<Exclusion>)
    requires Divides(w, ps, already, es) && v.available == w.available + [p] && v.exclusions == w.exclusions
    ensures Divides(v, ps + [p], already, es)
  {
    IdsOfMore(ps, p);
    IdsOfMore(w.available, p);
    SplitsMore(IdsOf(w.available), ExcludedIds(es), IdsOf(ps), p.id);
  }

  lemma ExcludedSplits(a: seq<string>, es: seq<Exclusion>, ps: seq<Point>, p: Point, e: Exclusion)
    requires Splits(a, ExcludedIds(es), IdsOf(ps)) && e.id == p.id
    ensures Splits(a, ExcludedIds(es + [e]), IdsOf(ps + [p]))
  {
    IdsOfMore(ps, p);
    ExcludedIdsOfSum(es, [e]);
    assert ExcludedIds([e]) == [p.id];
    SplitsMore(a, ExcludedIds(es), IdsOf(ps), p.id);
  }

  lemma OneMoreExcluded(w: Walk, v: Walk, ps: seq<Point>, p: Point, already: seq<Exclusion>, es: seq<Exclusion>, e: Exclusion)
    requires Divides(w, ps, already, es) && v.available == w.available && v.exclusions == w.exclusions + [e]
    requires e.id == p.id && e.why == Unavailable
    ensures Divides(v, ps + [p], already, es + [e])
  {
    ExcludedSplits(IdsOf(w.available), es, ps, p, e);
    assert v.exclusions == already + (es + [e]);
  }

  lemma StepKeepsOrExcludes(w: Walk, p: Point, runners: seq<Runner>, gate: Gate)
    requires Step(w, p, runners, gate).fault.None?
    ensures var v := Step(w, p, runners, gate);
            || (v.available == w.available + [p] && v.exclusions == w.exclusions)
            || (v.available == w.available && v.exclusions == w.exclusions + [Exclusion(p.id, p.provider, Unavailable)])
  {
  }

  /** So does every walk that meets no fault, whatever the gate. */
  lemma {:induction false} WalkDivides(ps: seq<Point>, runners: seq<Runner>, gate: Gate, already: seq<Exclusion>)
    returns (es: seq<Exclusion>)
    requires WalkFrom(Begin(already), ps, runners, gate).fault.None?
    ensures Divides(WalkFrom(Begin(already), ps, runners, gate), ps, already, es)
  {
    es := [];
    if ps != [] {
      var init, p := ps[..|ps| - 1], ps[|ps| - 1];
      assert ps == init + [p];
      WalkAppends(Begin(already), init, p, runners, gate);
      var w := WalkFrom(Begin(already), init, runners, gate);
      es := WalkDivides(init, runners, gate, already);
      StepKeepsOrExcludes(w, p, runners, gate);
      if Step(w, p, runners, gate).available == w.available {
        var e := Exclusion(p.id, p.provider, Unavailable);
        OneMoreExcluded(w, Step(w, p, runners, gate), init, p, already, es, e);
        es := es + [e];
      } else {
        OneMoreAvailable(w, Step(w, p, runners, gate), init, p, already, es);
      }
    }
  }

  lemma OfAppends(ps: seq<Point>, p: Point, provider: string)
    ensures NotOf(ps + [p], provider) == if p.provider != provider then NotOf(ps, provider) + [p] else NotOf(ps, provider)
    ensures Of(ps + [p], provider) == if p.provider != provider then Of(ps, provider) else Of(ps, provider) + [p]
  {
    assert (ps + [p])[..|ps|] == ps;
  }

  lemma {:induction false} RecoverySplits(ps: seq<Point>, provider: string)
    ensures Splits(IdsOf(NotOf(ps, provider)), IdsOf(Of(ps, provider)), IdsOf(ps))
  {
    if ps != [] {
      var init, p := ps[..|ps| - 1], ps[|ps| - 1];
      assert ps == init + [p];
      RecoverySplits(init, provider);
      IdsOfMore(init, p);
      IdsOfMore(NotOf(init, provider), p);
      IdsOfMore(Of(init, provider), p);
      SplitsMore(IdsOf(NotOf(init, provider)), IdsOf(Of(init, provider)), IdsOf(init), p.id);
      OfAppends(init, p, provider);
    }
  }

  lemma {:induction false} NotOfIsFree(ps: seq<Point>, provider: string)
    ensures forall p :: p in NotOf(ps, provider) ==> p in ps && p.provider != provider
  {
    if ps != [] {
      NotOfIsFree(ps[..|ps| - 1], provider);
    }
  }

  lemma ExcludedIdsAre(ps: seq<Point>, why: Why)
    ensures ExcludedIds(AsExclusions(ps, why)) == IdsOf(ps)
  {
  }

  /** A task over the generated points of a reviewed catalog, under the availability gate in use. */
  ghost predicate InUse(t: Task, gate: Gate) {
    && Reviewed(t.runners) && (forall p :: p in t.points ==> p in GeneratePoints(t.runners))
    && exists records, now :: gate == GateOf(t.runners, records, now)
  }

  /** The candidates left after recovery has excluded the failed provider, and what it excluded. */
  ghost function Remaining(t: Task): (r: (seq<Point>, seq<Exclusion>))
    requires t.chains.Some? && AllKnown(t.points, Authored(t))
  {
    var ps := PointsOf(t.points, Authored(t));
    if t.recovery.None? then (ps, [])
    else
      var prior := PointById(t.points, t.recovery.value.priorPoint);
      if prior.None? then (ps, []) else (NotOf(ps, prior.value.provider), AsExclusions(Of(ps, prior.value.provider), RecoveryExcluded))
  }

  lemma {:induction false} IsItsSubsequence(a: seq<string>)
    ensures IsSubsequence(a, a) && IsSubsequence([], a)
  {
    if a != [] {
      IsItsSubsequence(a[..|a| - 1]);
    }
  }

  lemma IdsOfPoints(points: seq<Point>, ids: seq<string>)
    requires AllKnown(points, ids)
    ensures IdsOf(PointsOf(points, ids)) == ids
  {
  }

  lemma RecoveryExcludes(ps: seq<Point>, provider: string)
    ensures Splits(IdsOf(NotOf(ps, provider)), ExcludedIds(AsExclusions(Of(ps, provider), RecoveryExcluded)), IdsOf(ps))
  {
    RecoverySplits(ps, provider);
    ExcludedIdsAre(Of(ps, provider), RecoveryExcluded);
  }

  lemma RemainingSplits(t: Task)
    requires t.chains.Some? && AllKnown(t.points, Authored(t))
    ensures Splits(IdsOf(Remaining(t).0), ExcludedIds(Remaining(t).1), Authored(t))
  {
    var ps := PointsOf(t.points, Authored(t));
    IdsOfPoints(t.points, Authored(t));
    if t.recovery.Some? && PointById(t.points, t.recovery.value.priorPoint).Some? {
      var provider := PointById(t.points, t.recovery.value.priorPoint).value.provider;
      RecoveryExcludes(ps, provider);
    } else {
      AllSplits(IdsOf(ps));
    }
  }

  lemma RemainingAreKnown(t: Task)
    requires t.chains.Some? && AllKnown(t.points, Authored(t))
    ensures forall p :: p in Remaining(t).0 ==> p in t.points
  {
    if t.recovery.Some? && PointById(t.points, t.recovery.value.priorPoint).Some? {
      NotOfIsFree(PointsOf(t.points, Authored(t)), PointById(t.points, t.recovery.value.priorPoint).value.provider);
    }
  }

  lemma AllSplits(ids: seq<string>)
    ensures Splits(ids, [], ids)
  {
    IsItsSubsequence(ids);
  }

  lemma SplitsTwice(a: seq<string>, b: seq<string>, c: seq<string>, d: seq<string>, all: seq<string>)
    requires Splits(a, b, all) && Splits(c, d, a)
    ensures IsSubsequence(c, all) && IsSubsequence(d, all) && multiset(c) + multiset(b + d) == multiset(all)
  {
    SubsequenceIsTransitive(c, a, all);
    SubsequenceIsTransitive(d, a, all);
    assert multiset(b + d) == multiset(b) + multiset(d);
  }

  ghost function WalkOf(t: Task, gate: Gate): Walk
    requires t.chains.Some? && AllKnown(t.points, Authored(t))
  {
    WalkFrom(Begin(Remaining(t).1), Remaining(t).0, t.runners, gate)
  }

  /** An admitted route got as far as the walk. */
  lemma AdmittedWalked(t: Task, gate: Gate, compile: Point -> Compiled)
    requires Route(t, gate, compile).Admitted?
    ensures t.chains.Some? && AllKnown(t.points, Authored(t))
    ensures t.recovery.Some? ==> PointById(t.points, t.recovery.value.priorPoint).Some?
    ensures Route(t, gate, compile) == Choose(t, WalkOf(t, gate), compile)
  {
  }

  lemma ChosenFrom(t: Task, w: Walk, compile: Point -> Compiled)
    requires Choose(t, w, compile).Admitted?
    ensures var d := Choose(t, w, compile);
            && w.fault.None? && w.available != [] && d.selected in w.available && d.tier == StartOf(t) && d.exclusions == w.exclusions
            && (if t.pinned.None? then d.chain == IdsOf(w.available) && d.selected == w.available[0]
                else d.chain == [t.pinned.value] && d.selected.id == t.pinned.value)
  {
    if t.pinned.Some? {
      NamedIsMember(w.available, t.pinned.value);
    }
  }

  lemma WalkInUse(t: Task, gate: Gate, ps: seq<Point>, already: seq<Exclusion>)
    requires InUse(t, gate) && forall p :: p in ps ==> p in t.points
    ensures WalkIs(WalkFrom(Begin(already), ps, t.runners, gate), ps, gate, already)
  {
    var records, now :| gate == GateOf(t.runners, records, now);
    GeneratedPointsDecideByKey(t.runners, records, now, ps);
    SkippingAgreesWithProbing(ps, t.runners, gate, already);
  }

  lemma AuthoredOnce(t: Task)
    requires t.chains.Some?
    ensures forall i, j :: 0 <= i < j < |Authored(t)| ==> Authored(t)[i] != Authored(t)[j]
  {
    DedupKeepsEach(ChainsFrom(t.chains.value, TIERS[R.TierRank(StartOf(t))..]));
  }

  /** What the walk found available, and what it excluded, against the authored candidates. */
  lemma WalkedSplits(t: Task, gate: Gate) returns (es: seq<Exclusion>)
    requires t.chains.Some? && AllKnown(t.points, Authored(t)) && WalkOf(t, gate).fault.None?
    ensures var w, already := WalkOf(t, gate), Remaining(t).1;
            && w.exclusions == already + es && (forall p :: p in w.available ==> p in Remaining(t).0)
            && IsSubsequence(IdsOf(w.available), Authored(t))
            && IsSubsequence(ExcludedIds(already), Authored(t)) && IsSubsequence(ExcludedIds(es), Authored(t))
            && multiset(IdsOf(w.available)) + multiset(ExcludedIds(w.exclusions)) == multiset(Authored(t))
  {
    var ps, already, w := Remaining(t).0, Remaining(t).1, WalkOf(t, gate);
    RemainingSplits(t);
    es := WalkDivides(ps, t.runners, gate, already);
    SplitsTwice(IdsOf(ps), ExcludedIds(already), IdsOf(w.available), ExcludedIds(es), Authored(t));
    ExcludedIdsOfSum(already, es);
  }

  /** Every authored candidate is in the chain or among the exclusions. */
  ghost predicate LandsEach(t: Task, d: Decision)
    requires t.chains.Some? && d.Admitted?
  {
    multiset(d.chain) + multiset(ExcludedIds(d.exclusions)) == multiset(Authored(t))
  }

  /**
   Whatever the gate: the chain of an admitted route begins with the selected point and has the
   authored order, as have the exclusions by recovery and then those by availability; no authored
   candidate repeats. Each lands in exactly one of chain and exclusions exactly when no operating
   point was asked for, or the one asked for was the only one available.
   */
  lemma AdmittedRoute(t: Task, gate: Gate, compile: Point -> Compiled)
    requires Route(t, gate, compile).Admitted?
    ensures t.chains.Some? && AllKnown(t.points, Authored(t))
    ensures forall i, j :: 0 <= i < j < |Authored(t)| ==> Authored(t)[i] != Authored(t)[j]
    ensures var d, n := Route(t, gate, compile), |Remaining(t).1|;
            && d.chain != [] && d.chain[0] == d.selected.id && IsSubsequence(d.chain, Authored(t))
            && n <= |d.exclusions| && d.exclusions[..n] == Remaining(t).1
            && IsSubsequence(ExcludedIds(d.exclusions[..n]), Authored(t)) && IsSubsequence(ExcludedIds(d.exclusions[n..]), Authored(t))
            && (LandsEach(t, d) <==> t.pinned.None? || |WalkOf(t, gate).available| == 1)
  {
    AdmittedWalked(t, gate, compile);
    AuthoredOnce(t);
    var w, d := WalkOf(t, gate), Route(t, gate, compile);
    ChosenFrom(t, w, compile);
    var es := WalkedSplits(t, gate);
    assert d.exclusions[|Remaining(t).1|..] == es;
    if t.pinned.Some? {
      PinnedIsOne(w.available, d.selected, t.pinned.value, Authored(t), ExcludedIds(d.exclusions));
    }
  }

  /** Under the gate in use, the chain of an admitted route is what probing every remaining candidate would keep, and that decides where each lands. */
  lemma AdmittedIsProbed(t: Task, gate: Gate, compile: Point -> Compiled)
    requires InUse(t, gate) && Route(t, gate, compile).Admitted?
    ensures t.chains.Some? && AllKnown(t.points, Authored(t))
    ensures var d, ps := Route(t, gate, compile), Remaining(t).0;
            && d.exclusions == Remaining(t).1 + AsExclusions(LeftOut(ps, gate), Unavailable) && d.selected in Kept(ps, gate)
            && d.chain == (if t.pinned.None? then IdsOf(Kept(ps, gate)) else [t.pinned.value])
            && (LandsEach(t, d) <==> t.pinned.None? || |Kept(ps, gate)| == 1)
  {
    AdmittedWalked(t, gate, compile);
    RemainingAreKnown(t);
    WalkInUse(t, gate, Remaining(t).0, Remaining(t).1);
    ChosenFrom(t, WalkOf(t, gate), compile);
    AdmittedRoute(t, gate, compile);
  }

  lemma PinnedIsOne(available: seq<Point>, p: Point, id: string, all: seq<string>, excluded: seq<string>)
    requires p in available && p.id == id && IsSubsequence(IdsOf(available), all)
    requires multiset(IdsOf(available)) + multiset(excluded) == multiset(all)
    ensures IsSubsequence([id], all)
    ensures multiset([id]) + multiset(excluded) == multiset(all) <==> |available| == 1
  {
    var i :| 0 <= i < |available| && available[i] == p;
    assert IdsOf(available)[i] == id;
    OneOf(IdsOf(available), i);
    SubsequenceIsTransitive([id], IdsOf(available), all);
    BagOfOne(IdsOf(available), id);
    Cancels(multiset(IdsOf(available)), multiset([id]), multiset(excluded), multiset(all));
  }

  lemma Cancels(a: multiset<string>, b: multiset<string>, c: multiset<string>, all: multiset<string>)
    requires a + c == all
    ensures b + c == all <==> b == a
  {
    if b + c == all {
      assert a == all - c && b == all - c;
    }
  }

  const KEY := QuotaKey("x", "y", "z", "s")

  const POINT_A := Point("a", "r", "m", None, "x", KEY)

  const POINT_B := Point("b", "r", "n", None, "x", KEY)

  function PinnedTask(): Task {
    Task([POINT_A, POINT_B], [Runner("r", [], KEY)], Some(map[R.Max := ["a", "b"]]), R.Max, None, None, true, Some("b"))
  }

  lemma PinnedIsAuthored()
    ensures StartOf(PinnedTask()) == R.Max && Authored(PinnedTask()) == ["a", "b"]
  {
    var t := PinnedTask();
    assert StartOf(t) == R.Max;
    assert TIERS[5..] == [R.Max] && [R.Max][1..] == [];
    assert ChainsFrom(t.chains.value, [R.Max]) == ["a", "b"] + ChainsFrom(t.chains.value, []) == ["a", "b"];
    var ids := ["a", "b"];
    assert ids[..1] == ["a"] && ["a"][..0] == [];
    assert Dedup(ids) == Dedup(["a"]) + ["b"] == (Dedup([]) + ["a"]) + ["b"];
  }

  lemma PinnedPoints()
    ensures AllKnown([POINT_A, POINT_B], ["a", "b"]) && PointsOf([POINT_A, POINT_B], ["a", "b"]) == [POINT_A, POINT_B]
  {
    var points := [POINT_A, POINT_B];
    assert PointById(points, "b") == Some(POINT_B);
    assert points[..1] == [POINT_A] && PointById(points, "a") == PointById([POINT_A], "a") == Some(POINT_A);
    assert ["a", "b"][1..] == ["b"] && ["b"][1..] == [];
    assert PointsOf(points, ["b"]) == [POINT_B] + PointsOf(points, []);
  }

  lemma PinnedWalk(runners: seq<Runner>, gate: Gate)
    requires runners == PinnedTask().runners && gate == ((kind, model) => Some(Unknown))
    ensures var w := WalkFrom(Begin([]), [POINT_A, POINT_B], runners, gate);
            w.fault.None? && w.available == [POINT_A, POINT_B] && w.exclusions == []
    ensures Named([POINT_A, POINT_B], "b") == Some(POINT_B)
  {
    var ps := [POINT_A, POINT_B];
    assert FindRunner(runners, "r").Some?;
    var w1 := Step(Begin([]), POINT_A, runners, gate);
    assert w1.available == [POINT_A] && w1.exhausted == {} && w1.local == {} && w1.fault.None?;
    assert ps[1..] == [POINT_B] && [POINT_B][1..] == [];
    assert WalkFrom(w1, [POINT_B], runners, gate) == Step(w1, POINT_B, runners, gate);
    assert Named([POINT_B], "b") == Some(POINT_B);
  }

  /** The input: two candidates can start, the second is asked for, and the first lands nowhere. */
  lemma PinnedDropsAnother()
    ensures var t := PinnedTask(); var d := Route(t, (kind, model) => Some(Unknown), p => Configured);
            Authored(t) == ["a", "b"] && d == Admitted(["b"], POINT_B, R.Max, [])
  {
    PinnedIsAuthored();
    PinnedPoints();
    PinnedWalk(PinnedTask().runners, (kind, model) => Some(Unknown));
  }

  lemma {:induction false} OneOf(ids: seq<string>, i: nat)
    requires i < |ids|
    ensures IsSubsequence([ids[i]], ids)
  {
    if i < |ids| - 1 {
      OneOf(ids[..|ids| - 1], i);
    } else {
      assert [ids[i]][..0] == [];
      IsItsSubsequence(ids[..|ids| - 1]);
    }
  }

  lemma BagOfOne(ids: seq<string>, id: string)
    requires id in ids
    ensures multiset(ids) == multiset([id]) <==> |ids| == 1
  {
    assert |multiset(ids)| == |ids| && |multiset([id])| == 1;
    if |ids| == 1 {
      assert ids == [id];
    }
  }

  /** A recovery never goes back to the provider that failed. */
  lemma RecoveryLeavesTheProvider(t: Task, gate: Gate, compile: Point -> Compiled)
    requires t.recovery.Some? && Route(t, gate, compile).Admitted?
    ensures PointById(t.points, t.recovery.value.priorPoint).Some?
    ensures Route(t, gate, compile).selected.provider != PointById(t.points, t.recovery.value.priorPoint).value.provider
  {
    AdmittedWalked(t, gate, compile);
    ChosenFrom(t, WalkOf(t, gate), compile);
    var es := WalkedSplits(t, gate);
    NotOfIsFree(PointsOf(t.points, Authored(t)), PointById(t.points, t.recovery.value.priorPoint).value.provider);
  }

  lemma {:induction false} NamedIsMember(ps: seq<Point>, id: string)
    ensures Named(ps, id).Some? ==> Named(ps, id).value in ps && Named(ps, id).value.id == id
  {
    if ps != [] {
      NamedIsMember(ps[1..], id);
    }
  }

  // ---- The authored order, by tiers and places ------------------------------------------------------------

  /** Where an id first stands, or the length. */
  function First(ids: seq<string>, id: string): (i: nat)
    ensures i <= |ids| && (i < |ids| ==> ids[i] == id) && forall j :: 0 <= j < i ==> ids[j] != id
    ensures i < |ids| <==> id in ids
  {
    if ids == [] || ids[0] == id then 0 else First(ids[1..], id) + 1
  }

  lemma FirstOfSum(a: seq<string>, b: seq<string>, id: string)
    ensures First(a + b, id) == if id in a then First(a, id) else |a| + First(b, id)
  {
    var i, s := First(a + b, id), a + b;
    if id in a {
      assert s[First(a, id)] == id;
      assert forall j :: 0 <= j < First(a, id) ==> s[j] == a[j];
    } else {
      assert forall j :: 0 <= j < |a| ==> s[j] == a[j];
      assert forall j :: |a| <= j < |s| ==> s[j] == b[j - |a|];
      if id in b {
        assert s[|a| + First(b, id)] == id;
      }
    }
  }

  /** Duplicates dropped, ids stand in the order in which they first stood. */
  lemma {:induction false} DedupInOrder(ids: seq<string>)
    ensures forall i, j :: 0 <= i < j < |Dedup(ids)| ==> First(ids, Dedup(ids)[i]) < First(ids, Dedup(ids)[j])
  {
    if ids != [] {
      var init, last := ids[..|ids| - 1], ids[|ids| - 1];
      assert ids == init + [last];
      var before := Dedup(init);
      DedupInOrder(init);
      DedupKeepsEach(init);
      FirstOfSum(init, [last], last);
      forall i | 0 <= i < |before| ensures First(ids, before[i]) == First(init, before[i]) < |init| {
        assert before[i] in init;
        FirstOfSum(init, [last], before[i]);
      }
    }
  }

  predicate InTier(chains: map<R.Tier, seq<string>>, tier: R.Tier, id: string) {
    tier in chains && id in chains[tier]
  }

  /** The first of these tiers, in order, whose chain has the id. */
  predicate IsFirstOf(chains: map<R.Tier, seq<string>>, tiers: seq<R.Tier>, id: string, n: nat) {
    n < |tiers| && InTier(chains, tiers[n], id) && forall m :: 0 <= m < n ==> !InTier(chains, tiers[m], id)
  }

  lemma {:induction false} FirstOfExists(chains: map<R.Tier, seq<string>>, tiers: seq<R.Tier>, id: string) returns (n: nat)
    requires id in ChainsFrom(chains, tiers)
    ensures IsFirstOf(chains, tiers, id, n)
  {
    if InTier(chains, tiers[0], id) {
      n := 0;
    } else {
      n := FirstOfExists(chains, tiers[1..], id);
      n := n + 1;
    }
  }

  lemma {:induction false} InSomeTierIff(chains: map<R.Tier, seq<string>>, tiers: seq<R.Tier>, id: string)
    ensures id in ChainsFrom(chains, tiers) <==> exists n :: 0 <= n < |tiers| && InTier(chains, tiers[n], id)
  {
    if tiers != [] {
      InSomeTierIff(chains, tiers[1..], id);
      if n :| 0 <= n < |tiers| && InTier(chains, tiers[n], id) {
        assert n > 0 ==> InTier(chains, tiers[1..][n - 1], id);
      }
      if n :| 0 <= n < |tiers[1..]| && InTier(chains, tiers[1..][n], id) {
        assert InTier(chains, tiers[n + 1], id);
      }
    }
  }

  lemma FirstInTiers(chains: map<R.Tier, seq<string>>, tiers: seq<R.Tier>, id: string, n: nat)
    requires IsFirstOf(chains, tiers, id, n)
    ensures var width := if tiers[0] in chains then |chains[tiers[0]]| else 0;
            if n == 0 then First(ChainsFrom(chains, tiers), id) == First(chains[tiers[0]], id) < width
            else First(ChainsFrom(chains, tiers), id) == width + First(ChainsFrom(chains, tiers[1..]), id)
  {
    var head := if tiers[0] in chains then chains[tiers[0]] else [];
    assert id in head <==> InTier(chains, tiers[0], id);
    FirstOfSum(head, ChainsFrom(chains, tiers[1..]), id);
  }

  /** What first stands earlier in the joined chains is first in an earlier tier, or earlier in the same. */
  lemma {:induction false} EarlierByTier(chains: map<R.Tier, seq<string>>, tiers: seq<R.Tier>, a: string, b: string, m: nat, n: nat)
    requires IsFirstOf(chains, tiers, a, m) && IsFirstOf(chains, tiers, b, n)
    requires First(ChainsFrom(chains, tiers), a) < First(ChainsFrom(chains, tiers), b)
    ensures m < n || (m == n && First(chains[tiers[m]], a) < First(chains[tiers[n]], b))
  {
    FirstInTiers(chains, tiers, a, m);
    FirstInTiers(chains, tiers, b, n);
    if m > 0 && n > 0 {
      LaterFirst(chains, tiers, a, m);
      LaterFirst(chains, tiers, b, n);
      EarlierByTier(chains, tiers[1..], a, b, m - 1, n - 1);
    }
  }

  lemma LaterFirst(chains: map<R.Tier, seq<string>>, tiers: seq<R.Tier>, id: string, n: nat)
    requires IsFirstOf(chains, tiers, id, n) && n > 0
    ensures IsFirstOf(chains, tiers[1..], id, n - 1) && !InTier(chains, tiers[0], id)
  {
    forall m | 0 <= m < n - 1 ensures !InTier(chains, tiers[1..][m], id) {
      assert !InTier(chains, tiers[m + 1], id);
    }
  }

  /** The weakest tier, from the start up, whose chain has the id. */
  ghost predicate IsFirstTier(t: Task, id: string, tier: R.Tier)
    requires t.chains.Some?
  {
    && R.TierRank(StartOf(t)) <= R.TierRank(tier) && InTier(t.chains.value, tier, id)
    && forall u :: R.TierRank(StartOf(t)) <= R.TierRank(u) < R.TierRank(tier) ==> !InTier(t.chains.value, u, id)
  }

  lemma TiersAreRanked()
    ensures |TIERS| == 6 && (forall n :: 0 <= n < 6 ==> R.TierRank(TIERS[n]) == n) && forall u :: TIERS[R.TierRank(u)] == u
  {
  }

  lemma FirstOfIsFirstTier(t: Task, id: string, n: nat)
    requires t.chains.Some? && IsFirstOf(t.chains.value, TIERS[R.TierRank(StartOf(t))..], id, n)
    ensures IsFirstTier(t, id, TIERS[R.TierRank(StartOf(t)) + n])
  {
    var start, tiers := R.TierRank(StartOf(t)), TIERS[R.TierRank(StartOf(t))..];
    TiersAreRanked();
    assert tiers[n] == TIERS[start + n];
    forall u | start <= R.TierRank(u) < start + n ensures !InTier(t.chains.value, u, id) {
      assert tiers[R.TierRank(u) - start] == u;
    }
  }

  /** An id is authored exactly when some tier from the start up has it in its chain. */
  lemma AuthoredIff(t: Task, id: string)
    requires t.chains.Some?
    ensures id in Authored(t) <==> exists u :: R.TierRank(StartOf(t)) <= R.TierRank(u) && InTier(t.chains.value, u, id)
  {
    var start, tiers := R.TierRank(StartOf(t)), TIERS[R.TierRank(StartOf(t))..];
    TiersAreRanked();
    DedupKeepsEach(ChainsFrom(t.chains.value, tiers));
    InSomeTierIff(t.chains.value, tiers, id);
    if n :| 0 <= n < |tiers| && InTier(t.chains.value, tiers[n], id) {
      assert tiers[n] == TIERS[start + n];
    }
    if u :| start <= R.TierRank(u) && InTier(t.chains.value, u, id) {
      assert tiers[R.TierRank(u) - start] == u;
    }
  }

  /** Of two authored ids the one that a weaker tier has comes first, and of one tier the earlier in its chain. */
  lemma AuthoredByTier(t: Task, i: nat, j: nat) returns (a: R.Tier, b: R.Tier)
    requires t.chains.Some? && i < j < |Authored(t)|
    ensures IsFirstTier(t, Authored(t)[i], a) && IsFirstTier(t, Authored(t)[j], b)
    ensures R.TierRank(a) < R.TierRank(b)
            || (a == b && First(t.chains.value[a], Authored(t)[i]) < First(t.chains.value[b], Authored(t)[j]))
  {
    var chains, start := t.chains.value, R.TierRank(StartOf(t));
    var tiers := TIERS[start..];
    var all, x, y := ChainsFrom(chains, tiers), Authored(t)[i], Authored(t)[j];
    DedupInOrder(all);
    DedupKeepsEach(all);
    var m := FirstOfExists(chains, tiers, x);
    var n := FirstOfExists(chains, tiers, y);
    EarlierByTier(chains, tiers, x, y, m, n);
    FirstOfIsFirstTier(t, x, m);
    FirstOfIsFirstTier(t, y, n);
    TiersAreRanked();
    a, b := TIERS[start + m], TIERS[start + n];
    assert tiers[m] == a && tiers[n] == b;
  }

  lemma {:induction false} SubsequencePlaces(a: seq<string>, b: seq<string>, k: nat)
    requires IsSubsequence(a, b) && 0 < k < |a|
    ensures exists p, q :: 0 <= p < q < |b| && b[p] == a[0] && b[q] == a[k]
    decreases |b|
  {
    var a1, b1 := a[..|a| - 1], b[..|b| - 1];
    if IsSubsequence(a, b1) {
      SubsequencePlaces(a, b1, k);
    } else if k < |a1| {
      SubsequencePlaces(a1, b1, k);
    } else {
      FirstIsIn(a1, b1);
      var p :| 0 <= p < |b1| && b1[p] == a1[0];
      assert b[p] == a[0] && b[|b| - 1] == a[k];
    }
  }

  lemma {:induction false} FirstIsIn(a: seq<string>, b: seq<string>)
    requires IsSubsequence(a, b) && a != []
    ensures a[0] in b
    decreases |b|
  {
    var a1, b1 := a[..|a| - 1], b[..|b| - 1];
    if IsSubsequence(a, b1) {
      FirstIsIn(a, b1);
    } else if a1 != [] {
      FirstIsIn(a1, b1);
    }
  }

  /** An unpinned route selects the first authored candidate that is not excluded. */
  lemma SelectedIsFirst(t: Task, gate: Gate, compile: Point -> Compiled) returns (n: nat)
    requires Route(t, gate, compile).Admitted? && t.pinned.None?
    ensures t.chains.Some? && n < |Authored(t)| && Authored(t)[n] == Route(t, gate, compile).selected.id
    ensures Authored(t)[n] !in ExcludedIds(Route(t, gate, compile).exclusions)
    ensures forall m :: 0 <= m < n ==> Authored(t)[m] in ExcludedIds(Route(t, gate, compile).exclusions)
  {
    var d := Route(t, gate, compile);
    AdmittedRoute(t, gate, compile);
    FirstIsIn(d.chain, Authored(t));
    n :| 0 <= n < |Authored(t)| && Authored(t)[n] == d.chain[0];
    FirstAvailable(d.chain, ExcludedIds(d.exclusions), Authored(t), n);
  }

  lemma FirstAvailable(chain: seq<string>, excluded: seq<string>, all: seq<string>, n: nat)
    requires chain != [] && IsSubsequence(chain, all) && multiset(chain) + multiset(excluded) == multiset(all)
    requires forall i, j :: 0 <= i < j < |all| ==> all[i] != all[j]
    requires n < |all| && all[n] == chain[0]
    ensures all[n] !in excluded && forall m :: 0 <= m < n ==> all[m] in excluded
  {
    OnceInBag(all, n);
    assert chain[0] in multiset(chain);
    forall m | 0 <= m < n ensures all[m] in excluded {
      assert all[m] in multiset(all);
      if k :| 0 <= k < |chain| && chain[k] == all[m] {
        if k > 0 {
          SubsequencePlaces(chain, all, k);
        }
      }
    }
  }

  lemma OnceInBag(all: seq<string>, n: nat)
    requires n < |all| && forall i, j :: 0 <= i < j < |all| ==> all[i] != all[j]
    ensures multiset(all)[all[n]] == 1
  {
    assert all == all[..n] + [all[n]] + all[n + 1..];
    assert all[n] !in all[..n] && all[n] !in all[n + 1..];
  }

  /** The larger of two ranks, and the smaller. */
  function Larger(a: int, b: int): int {
    if a < b then b else a
  }

  function Smaller(a: int, b: int): int {
    if a < b then a else b
  }

  /**
   The start, by ranks: the floor, or a request up to one tier above it, or what recovery demands if
   that is more: the prior tier after a provider limit, and one tier above it, up to the strongest,
   after any other failure.
   */
  lemma StartRank(t: Task)
    ensures var floor := R.TierRank(t.floor);
            var asked := if t.requested.None? then floor else Smaller(R.TierRank(t.requested.value), Smaller(floor + 1, 5));
            var demanded := if t.recovery.None? then 0
                            else if t.recovery.value.providerLimit then R.TierRank(t.recovery.value.priorTier)
                            else Smaller(R.TierRank(t.recovery.value.priorTier) + 1, 5);
            R.TierRank(StartOf(t)) == Larger(Larger(floor, asked), demanded)
  {
    TiersAreRanked();
  }

  /** `points[i]` is the last with this id. */
  predicate IsLastWith(points: seq<Point>, id: string, i: nat) {
    i < |points| && points[i].id == id && forall j :: i < j < |points| ==> points[j].id != id
  }

  lemma OneMorePoint(points: seq<Point>, id: string, i: nat)
    requires points != [] && points[|points| - 1].id != id && IsLastWith(points[..|points| - 1], id, i)
    ensures IsLastWith(points, id, i) && points[i] == points[..|points| - 1][i]
  {
    assert forall j :: 0 <= j < |points| - 1 ==> points[j] == points[..|points| - 1][j];
  }

  /** The last point with an id is the one found; none is found exactly when no point has it. */
  lemma {:induction false} LastPointIsFound(points: seq<Point>, id: string)
    ensures PointById(points, id).None? <==> forall i :: 0 <= i < |points| ==> points[i].id != id
    ensures PointById(points, id).Some? ==> exists i: nat :: IsLastWith(points, id, i) && points[i] == PointById(points, id).value
  {
    if points != [] {
      if points[|points| - 1].id == id {
        assert IsLastWith(points, id, |points| - 1);
      } else {
        var init := points[..|points| - 1];
        LastPointIsFound(init, id);
        if PointById(init, id).Some? {
          var i: nat :| IsLastWith(init, id, i) && init[i] == PointById(init, id).value;
          OneMorePoint(points, id, i);
        }
      }
    }
  }

  // ---- Availability and the route in their own words ----------------------------------------------------------

  /** A recorded quota failure that still counts: until its retry signal, or a quarter of an hour long. */
  predicate StillCounts(r: Record, now: int) {
    r.failure == QuotaFailure && (if r.retryNotBefore != None then now < r.retryNotBefore.value else now < r.at + 900_000)
  }

  predicate IsFresh(r: Record, now: int) {
    now < r.at + 900_000
  }

  ghost predicate Recorded(records: Option<seq<Record>>, key: QuotaKey, r: Record) {
    records.Some? && r in records.value && r.key == key
  }

  /** The status is the first of these that the key's records show: exhausted, limited by the local runner, degraded; and else unknown. */
  lemma StatusIff(key: QuotaKey, records: Option<seq<Record>>, now: int)
    ensures var status := AvailabilityOf(key, records, now).status;
            var exhausted := exists r :: Recorded(records, key, r) && StillCounts(r, now);
            var limited := exists r :: Recorded(records, key, r) && IsFresh(r, now) && r.failure == TransportFailure;
            var degraded := exists r :: Recorded(records, key, r) && IsFresh(r, now);
            && (status == KnownExhausted <==> exhausted)
            && (status == LocalCapacityLimited <==> !exhausted && limited)
            && (status == Degraded <==> !exhausted && !limited && degraded)
  {
    if records.Some? {
      var ms := Matching(records.value, key);
      forall r ensures r in ms <==> Recorded(records, key, r) {
        MatchingAre(records.value, key, r);
      }
      MembersDecide(ms, now);
    }
  }

  lemma MembersDecide(ms: seq<Record>, now: int)
    ensures (exists i :: 0 <= i < |ms| && IsActiveQuota(ms[i], now)) <==> exists r :: r in ms && StillCounts(r, now)
    ensures (exists i :: 0 <= i < |ms| && IsRecent(ms[i], now) && ms[i].failure == TransportFailure) <==>
            exists r :: r in ms && IsFresh(r, now) && r.failure == TransportFailure
    ensures (exists i :: 0 <= i < |ms| && IsRecent(ms[i], now)) <==> exists r :: r in ms && IsFresh(r, now)
  {
    forall r: Record ensures (IsActiveQuota(r, now) <==> StillCounts(r, now)) && (IsRecent(r, now) <==> IsFresh(r, now)) {
    }
  }

  /** The latest retry signal of the failures that still count. */
  lemma SignalIsLatest(key: QuotaKey, records: Option<seq<Record>>, now: int, r: Record)
    requires Recorded(records, key, r) && StillCounts(r, now) && r.retryNotBefore != None
    ensures var a := AvailabilityOf(key, records, now); a.retryNotBefore != None && r.retryNotBefore.value <= a.retryNotBefore.value
  {
    StatusIff(key, records, now);
    MatchingAre(records.value, key, r);
    SignalIsFuture(Matching(records.value, key), now);
  }

  /** What a walk has seen: statuses of given candidates only; exhausted ones if it remembers a quota, usable ones if something is available. */
  ghost predicate SawRightly(w: Walk, ps: seq<Point>) {
    && (w.exhausted == {} <==> forall i :: 0 <= i < |w.statuses| ==> w.statuses[i].1 != KnownExhausted)
    && (w.local == {} <==> forall i :: 0 <= i < |w.statuses| ==> w.statuses[i].1 != LocalCapacityLimited)
    && (w.available == [] <==> forall i :: 0 <= i < |w.statuses| ==> !Usable(w.statuses[i].1))
    && (w.fault == None ==> (w.statuses == [] <==> ps == []))
  }

  lemma StepSees(w: Walk, ps: seq<Point>, p: Point, runners: seq<Runner>, gate: Gate)
    requires SawRightly(w, ps)
    ensures SawRightly(Step(w, p, runners, gate), ps + [p])
  {
    var v := Step(w, p, runners, gate);
    if w.fault == None && !Skipped(w, p) && v.fault == None {
      var status := gate(p.runner, p.model).value;
      assert v.statuses == w.statuses + [(p.id, status)] && v.statuses[|w.statuses|].1 == status;
      assert forall i :: 0 <= i < |w.statuses| ==> v.statuses[i] == w.statuses[i];
    }
  }

  lemma {:induction false} WalkSees(ps: seq<Point>, runners: seq<Runner>, gate: Gate, already: seq<Exclusion>)
    ensures SawRightly(WalkFrom(Begin(already), ps, runners, gate), ps)
  {
    if ps != [] {
      var init, p := ps[..|ps| - 1], ps[|ps| - 1];
      assert ps == init + [p];
      WalkSees(init, runners, gate, already);
      WalkAppends(Begin(already), init, p, runners, gate);
      StepSees(WalkFrom(Begin(already), init, runners, gate), init, p, runners, gate);
    }
  }

  /** Found to be limited by local runners alone: something was tried, nothing can start, and no quota was found exhausted. */
  lemma AllLocalIff(ps: seq<Point>, runners: seq<Runner>, gate: Gate, already: seq<Exclusion>)
    requires WalkFrom(Begin(already), ps, runners, gate).fault == None && WalkFrom(Begin(already), ps, runners, gate).available == []
    ensures var w := WalkFrom(Begin(already), ps, runners, gate); AllLocal(w.statuses) <==> ps != [] && w.exhausted == {}
  {
    WalkSees(ps, runners, gate, already);
  }

  /** A fault is that of the first candidate not skipped whose runner is unknown, or at whom the gate fails; until it, the walk is as without it. */
  lemma {:induction false} FaultIsOfACandidate(ps: seq<Point>, runners: seq<Runner>, gate: Gate, already: seq<Exclusion>) returns (n: nat)
    requires WalkFrom(Begin(already), ps, runners, gate).fault != None
    ensures n < |ps|
    ensures var w, v := WalkFrom(Begin(already), ps[..n], runners, gate), WalkFrom(Begin(already), ps, runners, gate);
            && w.fault == None && QuotaIdentity(ps[n].quota) !in w.exhausted && ps[n].runner !in w.local
            && (v.fault == Some(NoRunner) <==> FindRunner(runners, ps[n].runner) == None)
            && (v.fault == Some(GateFailed) <==> FindRunner(runners, ps[n].runner) != None && gate(ps[n].runner, ps[n].model) == None)
  {
    var init, p := ps[..|ps| - 1], ps[|ps| - 1];
    assert ps == init + [p];
    WalkAppends(Begin(already), init, p, runners, gate);
    if WalkFrom(Begin(already), init, runners, gate).fault == None {
      n := |init|;
    } else {
      n := FaultIsOfACandidate(init, runners, gate, already);
      assert init[..n] == ps[..n];
    }
  }

  /** When a route is refused before any candidate is tried, and with what; any other is decided by the walk. */
  lemma RouteAnswers(t: Task, gate: Gate, compile: Point -> Compiled)
    ensures var d := Route(t, gate, compile);
            if t.chains == None || t.points == [] || exists id :: id in Authored(t) && PointById(t.points, id) == None then
              d == Abstain(CatalogUnavailable, "tierChains", [])
            else
              && AllKnown(t.points, Authored(t))
              && if t.recovery != None && PointById(t.points, t.recovery.value.priorPoint) == None then d == Abstain(CatalogUnavailable, "recovery", [])
                 else if Remaining(t).0 == [] then d == Abstain(NoCandidatesAtTier, "", Remaining(t).1)
                 else if !t.hasGate then d == Abstain(TransportFailed, "availability", [])
                 else d == Choose(t, WalkOf(t, gate), compile)
  {
    if t.chains.Some? {
      KnownIff(t.points, Authored(t));
    }
  }

  /** What a walk leads to: a fault, nothing to start with, or the first available point of those asked for, as it compiles. */
  lemma WalkedAnswers(t: Task, w: Walk, ps: seq<Point>, compile: Point -> Compiled)
    requires SawRightly(w, ps) && ps != []
    ensures var d := Choose(t, w, compile);
            && (w.fault == Some(NoRunner) ==> d == Abstain(CatalogUnavailable, "catalog", []))
            && (w.fault == Some(GateFailed) ==> d == Abstain(TransportFailed, "availability", []))
            && (w.fault == None && w.available == [] && w.exhausted == {} ==> d == Abstain(TransportFailed, "availability", w.exclusions))
            && (w.fault == None && w.available == [] && w.exhausted != {} ==> d == Abstain(NoCandidatesAtTier, "", w.exclusions))
            && (w.fault == None && w.available != [] && (forall p :: p in w.available ==> !Offers(t, w, p)) ==>
                  t.pinned != None && d == Abstain(NoCandidatesAtTier, "operatingPoint", w.exclusions))
            && (forall p :: w.fault == None && Offers(t, w, p) ==> AnswersWith(t, w, p, compile(p), d))
  {
    if w.fault == None && w.available != [] {
      if t.pinned == None {
        assert Offers(t, w, w.available[0]);
      } else {
        NamedIsFirst(w.available, t.pinned.value);
        if Named(w.available, t.pinned.value) != None {
          assert Offers(t, w, Named(w.available, t.pinned.value).value);
        }
      }
    }
  }

  predicate AnswersWith(t: Task, w: Walk, p: Point, compiled: Compiled, d: Decision) {
    match compiled
    case BadSelection => d == Abstain(InvalidResponse, "candidates", [])
    case NoConfiguration => d == Abstain(CatalogUnavailable, "configuration", [])
    case Configured => d == Admitted(if t.pinned == None then IdsOf(w.available) else [p.id], p, StartOf(t), w.exclusions)
  }

  /** The first available one, of those asked for. */
  ghost predicate Offers(t: Task, w: Walk, p: Point) {
    exists i :: 0 <= i < |w.available| && w.available[i] == p
      && (if t.pinned == None then i == 0 else p.id == t.pinned.value && forall j :: 0 <= j < i ==> w.available[j].id != t.pinned.value)
  }

  lemma KnownIff(points: seq<Point>, ids: seq<string>)
    ensures AllKnown(points, ids) <==> !exists id :: id in ids && PointById(points, id) == None
  {
    if id :| id in ids && PointById(points, id) == None {
      var i :| 0 <= i < |ids| && ids[i] == id;
    }
  }

  lemma {:induction false} NamedIsFirst(ps: seq<Point>, id: string)
    ensures Named(ps, id) == None <==> forall p :: p in ps ==> p.id != id
    ensures Named(ps, id) != None ==>
              exists i :: 0 <= i < |ps| && ps[i] == Named(ps, id).value && ps[i].id == id && forall j :: 0 <= j < i ==> ps[j].id != id
  {
    if ps != [] {
      NamedIsFirst(ps[1..], id);
      if ps[0].id != id && Named(ps[1..], id) != None {
        var i :| 0 <= i < |ps[1..]| && ps[1..][i] == Named(ps[1..], id).value && ps[1..][i].id == id && forall j :: 0 <= j < i ==> ps[1..][j].id != id;
        assert ps[i + 1] == Named(ps, id).value;
        forall j | 0 <= j < i + 1 ensures ps[j].id != id {
          assert j > 0 ==> ps[j] == ps[1..][j - 1];
        }
      }
    }
  }
}
