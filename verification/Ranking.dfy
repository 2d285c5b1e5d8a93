/**
 Ranking operating points for a tier: the admission envelope, the order by fitness with `id` as the
 tie-break, and the best point of each provider first.

 Fitness values are modelled as reals: the order only compares them.
 */
module Ranking {
  import opened JsText
  import opened Sorting

  datatype Tier = Utility | Economy | Standard | Strong | Frontier | Max

  datatype Class = Low | Medium | High | Extreme

  datatype Bound = AtMostClass(c: Class) | Unbounded

  datatype Envelope = Envelope(cost: Bound, latency: Bound)

  datatype Point = Point(id: JsString, provider: string, cost: Class, latency: Class, fitness: map<Tier, real>)

  datatype Reason = CostClassExceeded | LatencyClassExceeded

  datatype Exclusion = Exclusion(id: JsString, provider: string, reasons: seq<Reason>)

  function TierRank(t: Tier): nat {
    match t
    case Utility => 0
    case Economy => 1
    case Standard => 2
    case Strong => 3
    case Frontier => 4
    case Max => 5
  }

  function ClassRank(c: Class): nat {
    match c
    case Low => 0
    case Medium => 1
    case High => 2
    case Extreme => 3
  }

  function BoundRank(b: Bound): nat {
    if b.Unbounded? then ClassRank(Extreme) + 1 else ClassRank(b.c)
  }

  function EnvelopeOf(t: Tier): Envelope {
    match t
    case Utility => Envelope(AtMostClass(Low), AtMostClass(Low))
    case Economy => Envelope(AtMostClass(Low), AtMostClass(Medium))
    case Standard => Envelope(AtMostClass(Medium), AtMostClass(Medium))
    case Strong => Envelope(AtMostClass(High), AtMostClass(High))
    case Frontier => Envelope(AtMostClass(Extreme), AtMostClass(Extreme))
    case Max => Envelope(Unbounded, Unbounded)
  }

  function Reasons(p: Point, t: Tier): seq<Reason> {
    (if BoundRank(EnvelopeOf(t).cost) < ClassRank(p.cost) then [CostClassExceeded] else [])
    + if BoundRank(EnvelopeOf(t).latency) < ClassRank(p.latency) then [LatencyClassExceeded] else []
  }

  predicate Eligible(p: Point, t: Tier) {
    Reasons(p, t) == []
  }

  // ---- The catalog's own test --------------------------------------------------------------

  predicate WithinBound(c: Class, b: Bound) {
    b.Unbounded? || ClassRank(c) <= ClassRank(b.c)
  }

  function PointsWithinTier(ps: seq<Point>, t: Tier): seq<Point> {
    if ps == [] then []
    else (if WithinBound(ps[0].cost, EnvelopeOf(t).cost) && WithinBound(ps[0].latency, EnvelopeOf(t).latency) then [ps[0]] else [])
         + PointsWithinTier(ps[1..], t)
  }

  /** The two ways of testing the envelope agree, and a stronger tier admits no less. */
  lemma EnvelopesAgree(p: Point, t: Tier, u: Tier)
    ensures Eligible(p, t) <==> WithinBound(p.cost, EnvelopeOf(t).cost) && WithinBound(p.latency, EnvelopeOf(t).latency)
    ensures TierRank(t) <= TierRank(u) && Eligible(p, t) ==> Eligible(p, u)
    ensures Eligible(p, Max)
  {
  }

  // ---- The order ------------------------------------------------------------------------------

  function Fitness(p: Point, t: Tier): real {
    if t in p.fitness then p.fitness[t] else 0.0
  }

  /** The comparator is negative: fitter, or as fit with the smaller id. */
  predicate Before(a: Point, b: Point, t: Tier) {
    Fitness(a, t) > Fitness(b, t) || (Fitness(a, t) == Fitness(b, t) && Below(a.id, b.id))
  }

  function ByFitness(t: Tier): (Point, Point) -> bool {
    (a: Point, b: Point) => Before(a, b, t)
  }

  function ById(): (Exclusion, Exclusion) -> bool {
    (a: Exclusion, b: Exclusion) => Below(a.id, b.id)
  }

  lemma ByFitnessIsOrder(t: Tier)
    ensures IsOrder(ByFitness(t))
    ensures forall a: Point, b: Point :: a.id != b.id ==> ByFitness(t)(a, b) || ByFitness(t)(b, a)
  {
    forall a: Point, b: Point, c: Point
      ensures !Before(a, a, t) && (Before(a, b, t) && Before(b, c, t) ==> Before(a, c, t))
      ensures a.id != b.id ==> Before(a, b, t) || Before(b, a, t)
    {
      BelowIsIrreflexive(a.id);
      BelowIsTotal(a.id, b.id);
      if Below(a.id, b.id) && Below(b.id, c.id) {
        BelowIsTransitive(a.id, b.id, c.id);
      }
    }
  }

  lemma ByIdIsOrder()
    ensures IsOrder(ById())
    ensures forall a: Exclusion, b: Exclusion :: a.id != b.id ==> ById()(a, b) || ById()(b, a)
  {
    forall a: Exclusion, b: Exclusion, c: Exclusion
      ensures !Below(a.id, a.id) && (Below(a.id, b.id) && Below(b.id, c.id) ==> Below(a.id, c.id))
      ensures a.id != b.id ==> Below(a.id, b.id) || Below(b.id, a.id)
    {
      BelowIsIrreflexive(a.id);
      BelowIsTotal(a.id, b.id);
      if Below(a.id, b.id) && Below(b.id, c.id) {
        BelowIsTransitive(a.id, b.id, c.id);
      }
    }
  }

  // ---- The ranking ----------------------------------------------------------------------------

  function Admitted(ps: seq<Point>, t: Tier): seq<Point> {
    if ps == [] then []
    else Admitted(ps[..|ps| - 1], t) + if Eligible(ps[|ps| - 1], t) then [ps[|ps| - 1]] else []
  }

  function AsExclusion(p: Point, t: Tier): Exclusion {
    Exclusion(p.id, p.provider, Reasons(p, t))
  }

  function Excluded(ps: seq<Point>, t: Tier): seq<Exclusion> {
    if ps == [] then []
    else Excluded(ps[..|ps| - 1], t) + if Eligible(ps[|ps| - 1], t) then [] else [AsExclusion(ps[|ps| - 1], t)]
  }

  /** The first point of each provider not yet taken. */
  function Firsts(ranked: seq<Point>, taken: set<string>): seq<Point> {
    if ranked == [] then []
    else if ranked[0].provider in taken then Firsts(ranked[1..], taken)
    else [ranked[0]] + Firsts(ranked[1..], taken + {ranked[0].provider})
  }

  /** The points not yet chosen, by id. */
  function Others(ranked: seq<Point>, chosen: set<JsString>): seq<Point> {
    if ranked == [] then []
    else if ranked[0].id in chosen then Others(ranked[1..], chosen)
    else [ranked[0]] + Others(ranked[1..], chosen + {ranked[0].id})
  }

  function Ids(ps: seq<Point>): set<JsString> {
    set p | p in ps :: p.id
  }

  function Ordered(ps: seq<Point>, t: Tier): seq<Point> {
    var ranked := Sorted(Admitted(ps, t), ByFitness(t));
    Firsts(ranked, {}) + Others(ranked, Ids(Firsts(ranked, {})))
  }

  method RankFallbackCandidates(points: seq<Point>, tier: Tier) returns (ordered: seq<Point>, excluded: seq<Exclusion>)
    ensures ordered == Ordered(points, tier) && excluded == Sorted(Excluded(points, tier), ById())
  {
    var eligible: seq<Point> := [];
    excluded := [];
    assert points[..0] == [];
    for i := 0 to |points|
      invariant eligible == Admitted(points[..i], tier) && excluded == Excluded(points[..i], tier)
    {
      assert points[..i + 1][..i] == points[..i];
      var reasons := [];
      if BoundRank(EnvelopeOf(tier).cost) < ClassRank(points[i].cost) {
        reasons := reasons + [CostClassExceeded];
      }
      if BoundRank(EnvelopeOf(tier).latency) < ClassRank(points[i].latency) {
        reasons := reasons + [LatencyClassExceeded];
      }
      assert reasons == Reasons(points[i], tier);
      if |reasons| == 0 {
        eligible := eligible + [points[i]];
      } else {
        excluded := excluded + [Exclusion(points[i].id, points[i].provider, reasons)];
      }
    }
    assert points[..|points|] == points;
    var ranked := Sorted(eligible, ByFitness(tier));
    var chosen, firsts := TakeFirsts(ranked);
    var others := TakeOthers(ranked, chosen);
    ordered := firsts + others;
    excluded := Sorted(excluded, ById());
  }

  method TakeFirsts(ranked: seq<Point>) returns (chosen: set<JsString>, ordered: seq<Point>)
    ensures ordered == Firsts(ranked, {}) && chosen == Ids(ordered)
  {
    ordered := [];
    chosen := {};
    var providers: set<string> := {};
    for i := 0 to |ranked|
      invariant ordered + Firsts(ranked[i..], providers) == Firsts(ranked, {})
      invariant chosen == Ids(ordered)
    {
      assert ranked[i..][1..] == ranked[i + 1..];
      if ranked[i].provider !in providers {
        IdsOfMore(ordered, ranked[i]);
        ordered := ordered + [ranked[i]];
        chosen := chosen + {ranked[i].id};
        providers := providers + {ranked[i].provider};
      }
    }
  }

  lemma IdsOfMore(ps: seq<Point>, p: Point)
    ensures Ids(ps + [p]) == Ids(ps) + {p.id}
  {
    forall id ensures id in Ids(ps + [p]) <==> id in Ids(ps) + {p.id} {
      if id in Ids(ps) {
        var q :| q in ps && q.id == id;
        assert q in ps + [p];
      }
      assert p in ps + [p];
    }
  }

  method TakeOthers(ranked: seq<Point>, already: set<JsString>) returns (ordered: seq<Point>)
    ensures ordered == Others(ranked, already)
  {
    ordered := [];
    var chosen := already;
    for i := 0 to |ranked|
      invariant ordered + Others(ranked[i..], chosen) == Others(ranked, already)
    {
      assert ranked[i..][1..] == ranked[i + 1..];
      if ranked[i].id !in chosen {
        ordered := ordered + [ranked[i]];
        chosen := chosen + {ranked[i].id};
      }
    }
  }

  // ---- What the ranking promises -----------------------------------------------------------------

  ghost predicate DistinctIds(ps: seq<Point>) {
    forall i, j :: 0 <= i < j < |ps| ==> ps[i].id != ps[j].id
  }

  /** The points passed over by `Firsts`. */
  ghost function Seconds(ranked: seq<Point>, taken: set<string>): seq<Point> {
    if ranked == [] then []
    else if ranked[0].provider in taken then [ranked[0]] + Seconds(ranked[1..], taken)
    else Seconds(ranked[1..], taken + {ranked[0].provider})
  }

  lemma {:induction false} FirstsAndSeconds(ranked: seq<Point>, taken: set<string>)
    ensures multiset(Firsts(ranked, taken)) + multiset(Seconds(ranked, taken)) == multiset(ranked)
  {
    if ranked != [] {
      var p, rest := ranked[0], ranked[1..];
      assert ranked == [p] + rest;
      FirstsAndSeconds(rest, if p.provider in taken then taken else taken + {p.provider});
    }
  }

  lemma {:induction false} MemberOfEither(ranked: seq<Point>, taken: set<string>, x: Point)
    ensures x in Firsts(ranked, taken) ==> x in ranked && x.provider !in taken
    ensures x in Seconds(ranked, taken) ==> x in ranked
  {
    if ranked != [] {
      var p, rest := ranked[0], ranked[1..];
      MemberOfEither(rest, if p.provider in taken then taken else taken + {p.provider}, x);
    }
  }

  lemma {:induction false} OthersAreSeconds(ranked: seq<Point>, taken: set<string>, chosen: set<JsString>)
    requires DistinctIds(ranked)
    requires forall x :: x in ranked ==> (x.id in chosen <==> x in Firsts(ranked, taken))
    ensures Others(ranked, chosen) == Seconds(ranked, taken)
  {
    if ranked != [] {
      var p, rest := ranked[0], ranked[1..];
      forall x | x in rest ensures x.id != p.id && x in ranked {
        var i :| 0 <= i < |rest| && rest[i] == x;
        assert ranked[i + 1] == x;
      }
      if p.provider in taken {
        MemberOfEither(rest, taken, p);
        assert p in ranked && p !in rest;
        OthersAreSeconds(rest, taken, chosen + {p.id});
      } else {
        assert p in Firsts(ranked, taken) && p in ranked;
        forall x | x in rest ensures x.id in chosen <==> x in Firsts(rest, taken + {p.provider}) {
        }
        OthersAreSeconds(rest, taken + {p.provider}, chosen);
      }
    }
  }

  lemma {:induction false} PartsInOrder(ranked: seq<Point>, taken: set<string>, less: (Point, Point) -> bool)
    requires InOrder(ranked, less)
    ensures InOrder(Firsts(ranked, taken), less) && InOrder(Seconds(ranked, taken), less)
  {
    if ranked != [] {
      var p, rest := ranked[0], ranked[1..];
      var later := if p.provider in taken then taken else taken + {p.provider};
      PartsInOrder(rest, later, less);
      forall y | y in Firsts(rest, later) || y in Seconds(rest, later) ensures !less(y, p) {
        MemberOfEither(rest, later, y);
        var i :| 0 <= i < |rest| && rest[i] == y;
        assert ranked[i + 1] == y;
      }
      PrependInOrder(p, Firsts(rest, later), less);
      PrependInOrder(p, Seconds(rest, later), less);
    }
  }

  /** Different providers, each represented by the first of its points. */
  lemma {:induction false} FirstsAreBest(ranked: seq<Point>, taken: set<string>, less: (Point, Point) -> bool, x: Point)
    requires InOrder(ranked, less) && x in ranked && x.provider !in taken && !less(x, x)
    ensures exists f :: f in Firsts(ranked, taken) && f.provider == x.provider && !less(x, f)
  {
    var p, rest := ranked[0], ranked[1..];
    if p.provider == x.provider {
      var i :| 0 <= i < |ranked| && ranked[i] == x;
      assert p in Firsts(ranked, taken);
    } else {
      var i :| 0 <= i < |ranked| && ranked[i] == x;
      assert rest[i - 1] == x;
      var later := if p.provider in taken then taken else taken + {p.provider};
      FirstsAreBest(rest, later, less, x);
      var f :| f in Firsts(rest, later) && f.provider == x.provider && !less(x, f);
      assert f in Firsts(ranked, taken);
    }
  }

  lemma {:induction false} FirstsDiffer(ranked: seq<Point>, taken: set<string>)
    ensures forall i, j :: 0 <= i < j < |Firsts(ranked, taken)| ==> Firsts(ranked, taken)[i].provider != Firsts(ranked, taken)[j].provider
  {
    if ranked != [] {
      var p, rest := ranked[0], ranked[1..];
      if p.provider in taken {
        FirstsDiffer(rest, taken);
      } else {
        var later := taken + {p.provider};
        FirstsDiffer(rest, later);
        forall y | y in Firsts(rest, later) ensures y.provider != p.provider {
          MemberOfEither(rest, later, y);
        }
      }
    }
  }

  // ---- The main results ----------------------------------------------------------------------------

  lemma {:induction false} AdmittedAre(ps: seq<Point>, t: Tier, x: Point)
    ensures x in Admitted(ps, t) <==> x in ps && Eligible(x, t)
  {
    if ps != [] {
      AdmittedAre(ps[..|ps| - 1], t, x);
      assert ps == ps[..|ps| - 1] + [ps[|ps| - 1]];
    }
  }

  lemma {:induction false} AdmittedIsDistinct(ps: seq<Point>, t: Tier)
    requires DistinctIds(ps)
    ensures DistinctIds(Admitted(ps, t))
  {
    if ps != [] {
      var init, last := ps[..|ps| - 1], ps[|ps| - 1];
      AdmittedIsDistinct(init, t);
      forall x | x in Admitted(init, t) ensures x.id != last.id {
        AdmittedAre(init, t, x);
        var i :| 0 <= i < |init| && init[i] == x;
        assert ps[i] == x;
      }
    }
  }

  /** As a bag, so that two orders of one list can be compared. */
  ghost predicate OneEach(m: multiset<Point>) {
    (forall x :: x in m ==> m[x] == 1) && (forall a, b :: a in m && b in m && a != b ==> a.id != b.id)
  }

  lemma {:induction false} DistinctAsBag(ps: seq<Point>)
    ensures DistinctIds(ps) <==> OneEach(multiset(ps))
  {
    if ps != [] {
      var init, last := ps[..|ps| - 1], ps[|ps| - 1];
      assert ps == init + [last];
      DistinctAsBag(init);
      LastIsNew(init, last);
    }
  }

  lemma LastIdIsNew(init: seq<Point>, last: Point)
    ensures DistinctIds(init + [last]) <==> DistinctIds(init) && last.id !in Ids(init)
  {
    var ps := init + [last];
    assert ps[|init|] == last && forall i :: 0 <= i < |init| ==> ps[i] == init[i];
    if DistinctIds(ps) {
      forall q | q in init ensures q.id != last.id {
        var i :| 0 <= i < |init| && init[i] == q;
        assert ps[i] == q;
      }
    }
    if last.id !in Ids(init) {
      forall i | 0 <= i < |init| ensures init[i].id != last.id {
        assert init[i] in init;
      }
    }
  }

  lemma LastIsNew(init: seq<Point>, last: Point)
    ensures DistinctIds(init + [last]) <==> DistinctIds(init) && last.id !in Ids(init)
    ensures OneEach(multiset(init + [last])) <==> OneEach(multiset(init)) && last.id !in Ids(init)
  {
    LastIdIsNew(init, last);
    var m, n := multiset(init), multiset(init + [last]);
    assert n == m + multiset{last};
    if last.id in Ids(init) {
      var q :| q in init && q.id == last.id;
      assert q in m && q in n && last in n;
      assert q == last ==> n[last] >= 2;
    } else {
      forall x | x in m ensures x.id != last.id {
        assert x in init && x.id in Ids(init);
      }
      assert last !in m;
      assert forall x :: x in m ==> x in n;
    }
  }

  /** What is ordered is what is admitted: nothing lost, nothing repeated. */
  lemma OrderedIsAdmitted(ps: seq<Point>, t: Tier)
    requires DistinctIds(ps)
    ensures multiset(Ordered(ps, t)) == multiset(Admitted(ps, t))
    ensures var ranked := Sorted(Admitted(ps, t), ByFitness(t));
            Ordered(ps, t) == Firsts(ranked, {}) + Seconds(ranked, {}) && InOrder(ranked, ByFitness(t))
  {
    var less := ByFitness(t);
    var ranked := Sorted(Admitted(ps, t), less);
    SortedKeeps(Admitted(ps, t), less);
    ByFitnessIsOrder(t);
    SortedInOrder(Admitted(ps, t), less);
    AdmittedIsDistinct(ps, t);
    DistinctAsBag(Admitted(ps, t));
    DistinctAsBag(ranked);
    FirstsKnownById(ranked);
    OthersAreSeconds(ranked, {}, Ids(Firsts(ranked, {})));
    FirstsAndSeconds(ranked, {});
  }

  lemma FirstsKnownById(ranked: seq<Point>)
    requires DistinctIds(ranked)
    ensures forall x :: x in ranked ==> (x.id in Ids(Firsts(ranked, {})) <==> x in Firsts(ranked, {}))
  {
    forall x | x in ranked ensures x.id in Ids(Firsts(ranked, {})) <==> x in Firsts(ranked, {}) {
      if x.id in Ids(Firsts(ranked, {})) {
        var y :| y in Firsts(ranked, {}) && y.id == x.id;
        MemberOfEither(ranked, {}, y);
        var i :| 0 <= i < |ranked| && ranked[i] == x;
        var j :| 0 <= j < |ranked| && ranked[j] == y;
        assert i == j;
      }
    }
  }

  lemma {:induction false} ExcludedAre(ps: seq<Point>, t: Tier, e: Exclusion)
    ensures e in Excluded(ps, t) <==> exists p :: p in ps && !Eligible(p, t) && e == AsExclusion(p, t)
    ensures |Admitted(ps, t)| + |Excluded(ps, t)| == |ps|
  {
    if ps != [] {
      var init, last := ps[..|ps| - 1], ps[|ps| - 1];
      ExcludedAre(init, t, e);
      assert ps == init + [last];
      if e in Excluded(init, t) {
        var p :| p in init && !Eligible(p, t) && e == AsExclusion(p, t);
        assert p in ps;
      }
      if e in Excluded(ps, t) && e !in Excluded(init, t) {
        assert last in ps && e == AsExclusion(last, t);
      }
    }
  }

  /** Every input point is either ordered or excluded with its reasons, once. */
  lemma RankingIsAPermutation(ps: seq<Point>, t: Tier)
    requires DistinctIds(ps)
    ensures forall x :: x in Ordered(ps, t) <==> x in ps && Eligible(x, t)
    ensures forall e :: e in Sorted(Excluded(ps, t), ById()) <==> exists p :: p in ps && !Eligible(p, t) && e == AsExclusion(p, t)
    ensures |Ordered(ps, t)| + |Sorted(Excluded(ps, t), ById())| == |ps| && DistinctIds(Ordered(ps, t))
    ensures InOrder(Sorted(Excluded(ps, t), ById()), ById())
  {
    OrderedIsAdmitted(ps, t);
    AdmittedIsDistinct(ps, t);
    DistinctAsBag(Admitted(ps, t));
    DistinctAsBag(Ordered(ps, t));
    SameMembers(Ordered(ps, t), Admitted(ps, t));
    forall x ensures x in Ordered(ps, t) <==> x in ps && Eligible(x, t) {
      AdmittedAre(ps, t, x);
    }
    SortedKeeps(Excluded(ps, t), ById());
    SameMembers(Sorted(Excluded(ps, t), ById()), Excluded(ps, t));
    forall e ensures e in Sorted(Excluded(ps, t), ById()) <==> exists p :: p in ps && !Eligible(p, t) && e == AsExclusion(p, t) {
      ExcludedAre(ps, t, e);
    }
    ExcludedAre(ps, t, Exclusion([], "", []));
    ByIdIsOrder();
    SortedInOrder(Excluded(ps, t), ById());
  }

  /** The ordered points are those the catalog admits to the tier. */
  lemma {:induction false} OrderedAreWithinTier(ps: seq<Point>, t: Tier, x: Point)
    requires DistinctIds(ps)
    ensures x in Ordered(ps, t) <==> x in PointsWithinTier(ps, t)
  {
    RankingIsAPermutation(ps, t);
    WithinTierAre(ps, t, x);
  }

  lemma {:induction false} WithinTierAre(ps: seq<Point>, t: Tier, x: Point)
    ensures x in PointsWithinTier(ps, t) <==> x in ps && Eligible(x, t)
  {
    if ps != [] {
      WithinTierAre(ps[1..], t, x);
      EnvelopesAgree(ps[0], t, t);
    }
  }

  /** How many of the ordered points stand for a provider each. */
  ghost function Providers(ps: seq<Point>, t: Tier): nat {
    |Firsts(Sorted(Admitted(ps, t), ByFitness(t)), {})|
  }

  /**
   First the best point of each provider, in rank order; then the rest, in rank order; and no point
   beats its provider's representative.
   */
  lemma BestOfEachProviderFirst(ps: seq<Point>, t: Tier)
    requires DistinctIds(ps)
    ensures var o, k := Ordered(ps, t), Providers(ps, t);
            && k <= |o|
            && InOrder(o[..k], ByFitness(t)) && InOrder(o[k..], ByFitness(t))
            && (forall i, j :: 0 <= i < j < k ==> o[i].provider != o[j].provider)
            && (forall x :: x in o ==> exists f :: f in o[..k] && f.provider == x.provider && !Before(x, f, t))
  {
    var less := ByFitness(t);
    var ranked := Sorted(Admitted(ps, t), less);
    OrderedIsAdmitted(ps, t);
    SortedKeeps(Admitted(ps, t), less);
    PartsInOrder(ranked, {}, less);
    FirstsDiffer(ranked, {});
    var o, k := Ordered(ps, t), Providers(ps, t);
    assert o[..k] == Firsts(ranked, {}) && o[k..] == Seconds(ranked, {});
    SameMembers(o, ranked);
    ByFitnessIsOrder(t);
    forall x | x in o ensures exists f :: f in o[..k] && f.provider == x.provider && !Before(x, f, t) {
      FirstsAreBest(ranked, {}, less, x);
      var f :| f in Firsts(ranked, {}) && f.provider == x.provider && !less(x, f);
      assert f in o[..k];
    }
  }

  lemma OneMoreInBag(ps: seq<Point>, last: Point, x: Point)
    ensures multiset(ps + [last])[x] == multiset(ps)[x] + if x == last then 1 else 0
  {
  }

  lemma {:induction false} AdmittedAsBag(ps: seq<Point>, t: Tier, x: Point)
    ensures multiset(Admitted(ps, t))[x] == if Eligible(x, t) then multiset(ps)[x] else 0
  {
    if ps != [] {
      var init, last := ps[..|ps| - 1], ps[|ps| - 1];
      AdmittedAsBag(init, t, x);
      assert ps == init + [last];
      OneMoreInBag(init, last, x);
      if Eligible(last, t) {
        OneMoreInBag(Admitted(init, t), last, x);
      } else {
        assert Admitted(ps, t) == Admitted(init, t);
      }
    }
  }

  lemma ComparableById(m: multiset<Point>, t: Tier)
    requires OneEach(m)
    ensures Comparable(m, ByFitness(t))
  {
    ByFitnessIsOrder(t);
  }

  /** The order in which the points are given makes no difference. */
  lemma RankingForgetsInputOrder(ps: seq<Point>, qs: seq<Point>, t: Tier)
    requires DistinctIds(ps) && multiset(ps) == multiset(qs)
    ensures DistinctIds(qs) && Ordered(ps, t) == Ordered(qs, t)
    ensures Sorted(Excluded(ps, t), ById()) == Sorted(Excluded(qs, t), ById())
  {
    DistinctAsBag(ps);
    DistinctAsBag(qs);
    AdmittedIsDistinct(ps, t);
    DistinctAsBag(Admitted(ps, t));
    forall x ensures multiset(Admitted(ps, t))[x] == multiset(Admitted(qs, t))[x] {
      AdmittedAsBag(ps, t, x);
      AdmittedAsBag(qs, t, x);
    }
    assert multiset(Admitted(ps, t)) == multiset(Admitted(qs, t));
    ComparableById(multiset(Admitted(ps, t)), t);
    ByFitnessIsOrder(t);
    SortingForgetsOrder(Admitted(ps, t), Admitted(qs, t), ByFitness(t));
    ExclusionsForgetInputOrder(ps, qs, t);
  }

  lemma ExclusionsForgetInputOrder(ps: seq<Point>, qs: seq<Point>, t: Tier)
    requires DistinctIds(ps) && DistinctIds(qs) && multiset(ps) == multiset(qs)
    ensures Sorted(Excluded(ps, t), ById()) == Sorted(Excluded(qs, t), ById())
  {
    SameMembers(ps, qs);
    ExcludedOnce(ps, t);
    ExcludedOnce(qs, t);
    var a, b := multiset(Excluded(ps, t)), multiset(Excluded(qs, t));
    forall e ensures a[e] == b[e] {
      ExcludedAre(ps, t, e);
      ExcludedAre(qs, t, e);
      assert e in a <==> e in Excluded(ps, t);
      assert e in b <==> e in Excluded(qs, t);
    }
    assert a == b;
    ByIdIsOrder();
    SortingForgetsOrder(Excluded(ps, t), Excluded(qs, t), ById());
  }

  ghost predicate OneExclusionEach(m: multiset<Exclusion>) {
    (forall e :: e in m ==> m[e] == 1) && (forall a, b :: a in m && b in m && a != b ==> a.id != b.id)
  }

  lemma OneMoreExclusion(m: multiset<Exclusion>, x: Exclusion)
    requires OneExclusionEach(m) && forall e :: e in m ==> e.id != x.id
    ensures OneExclusionEach(m + multiset{x})
  {
  }

  lemma LastExclusionIsNew(init: seq<Point>, last: Point, t: Tier)
    requires DistinctIds(init + [last])
    ensures forall e :: e in multiset(Excluded(init, t)) ==> e.id != last.id
  {
    forall e | e in multiset(Excluded(init, t)) ensures e.id != last.id {
      var i := ExcludedFrom(init, t, e);
      assert (init + [last])[i] == init[i] && (init + [last])[|init|] == last;
    }
  }

  lemma {:induction false} ExcludedFrom(ps: seq<Point>, t: Tier, e: Exclusion) returns (i: nat)
    requires e in Excluded(ps, t)
    ensures i < |ps| && ps[i].id == e.id
  {
    var init := ps[..|ps| - 1];
    if e in Excluded(init, t) {
      i := ExcludedFrom(init, t, e);
    } else {
      i := |ps| - 1;
    }
  }

  lemma {:induction false} ExcludedAreOnce(ps: seq<Point>, t: Tier)
    requires DistinctIds(ps)
    ensures OneExclusionEach(multiset(Excluded(ps, t)))
  {
    if ps != [] {
      var init, last := ps[..|ps| - 1], ps[|ps| - 1];
      assert ps == init + [last];
      ExcludedAreOnce(init, t);
      LastExclusionIsNew(init, last, t);
      OneMoreExclusion(multiset(Excluded(init, t)), AsExclusion(last, t));
    }
  }

  lemma ExcludedOnce(ps: seq<Point>, t: Tier)
    requires DistinctIds(ps)
    ensures forall e :: e in multiset(Excluded(ps, t)) ==> multiset(Excluded(ps, t))[e] == 1
    ensures Comparable(multiset(Excluded(ps, t)), ById())
  {
    ExcludedAreOnce(ps, t);
    ByIdIsOrder();
  }

  // ---- The ranking in its own words ---------------------------------------------------------------

  /** Fitter for the tier, or as fit and with the id that sorts first. */
  predicate RanksAbove(a: Point, b: Point, t: Tier) {
    Fitness(a, t) >= Fitness(b, t) && (Fitness(a, t) == Fitness(b, t) ==> Below(a.id, b.id))
  }

  lemma FittestOfEachProvider(ps: seq<Point>, t: Tier, x: Point)
    requires DistinctIds(ps) && x in Ordered(ps, t)
    ensures Providers(ps, t) <= |Ordered(ps, t)|
    ensures exists f :: f in Ordered(ps, t)[..Providers(ps, t)] && f.provider == x.provider && (f == x || RanksAbove(f, x, t))
  {
    var o, k := Ordered(ps, t), Providers(ps, t);
    BestOfEachProviderFirst(ps, t);
    RankingIsAPermutation(ps, t);
    var f :| f in o[..k] && f.provider == x.provider && !Before(x, f, t);
    BelowIsTotal(f.id, x.id);
    assert f in o;
    if f.id == x.id {
      SameIdSamePoint(o, f, x);
    }
  }

  /** The fittest of each provider, and then the others, each part from the fittest down, ids deciding between equals. */
  lemma FittestComeFirst(ps: seq<Point>, t: Tier)
    requires DistinctIds(ps)
    ensures var o, k := Ordered(ps, t), Providers(ps, t);
            && k <= |o|
            && (forall i, j :: 0 <= i < j < k ==> RanksAbove(o[i], o[j], t))
            && (forall i, j :: k <= i < j < |o| ==> RanksAbove(o[i], o[j], t))
            && (forall x :: x in o ==> exists f :: f in o[..k] && f.provider == x.provider && (f == x || RanksAbove(f, x, t)))
  {
    var o, k := Ordered(ps, t), Providers(ps, t);
    BestOfEachProviderFirst(ps, t);
    RankingIsAPermutation(ps, t);
    forall i, j | 0 <= i < j < |o| && (j < k || k <= i) ensures RanksAbove(o[i], o[j], t) {
      assert j < k ==> !ByFitness(t)(o[..k][j], o[..k][i]);
      assert k <= i ==> !ByFitness(t)(o[k..][j - k], o[k..][i - k]);
      BelowIsTotal(o[i].id, o[j].id);
    }
    forall x | x in o ensures exists f :: f in o[..k] && f.provider == x.provider && (f == x || RanksAbove(f, x, t)) {
      FittestOfEachProvider(ps, t, x);
    }
  }

  lemma SameIdSamePoint(ps: seq<Point>, a: Point, b: Point)
    requires DistinctIds(ps) && a in ps && b in ps && a.id == b.id
    ensures a == b
  {
    var i :| 0 <= i < |ps| && ps[i] == a;
    var j :| 0 <= j < |ps| && ps[j] == b;
  }

  /** What each tier admits, class by class. */
  lemma TiersAdmit(p: Point, t: Tier)
    ensures Eligible(p, t) <==>
            match t
            case Utility => p.cost == Low && p.latency == Low
            case Economy => p.cost == Low && p.latency in {Low, Medium}
            case Standard => p.cost in {Low, Medium} && p.latency in {Low, Medium}
            case Strong => p.cost != Extreme && p.latency != Extreme
            case _ => true
  {
  }

  /** The classes from the cheapest up. */
  predicate Exceeds(c: Class, limit: Class) {
    match limit
    case Low => c != Low
    case Medium => c == High || c == Extreme
    case High => c == Extreme
    case Extreme => false
  }

  predicate ExceedsBound(c: Class, b: Bound) {
    b.AtMostClass? && Exceeds(c, b.c)
  }

  /** An excluded point is listed under its own id and provider, with exactly the bounds it exceeds, cost first; the list ascends by id. */
  lemma ExclusionsSayWhy(ps: seq<Point>, t: Tier)
    requires DistinctIds(ps)
    ensures var es := Sorted(Excluded(ps, t), ById());
            && (forall i, j :: 0 <= i < j < |es| ==> !Below(es[j].id, es[i].id))
            && (forall e :: e in es ==> exists p :: p in ps && ListsWhy(e, p, t))
  {
    RankingIsAPermutation(ps, t);
    var es := Sorted(Excluded(ps, t), ById());
    forall i, j | 0 <= i < j < |es| ensures !Below(es[j].id, es[i].id) {
      assert !ById()(es[j], es[i]);
    }
    forall e | e in es ensures exists p :: p in ps && ListsWhy(e, p, t) {
      var p :| p in ps && !Eligible(p, t) && e == AsExclusion(p, t);
      ExclusionSaysWhy(p, t);
    }
  }

  predicate ListsWhy(e: Exclusion, p: Point, t: Tier) {
    e.id == p.id && e.provider == p.provider && SaysWhy(e.reasons, p, t)
  }

  lemma ExclusionSaysWhy(p: Point, t: Tier)
    ensures ListsWhy(AsExclusion(p, t), p, t)
  {
  }

  predicate SaysWhy(reasons: seq<Reason>, p: Point, t: Tier) {
    reasons == if ExceedsBound(p.cost, EnvelopeOf(t).cost) && ExceedsBound(p.latency, EnvelopeOf(t).latency) then [CostClassExceeded, LatencyClassExceeded]
               else if ExceedsBound(p.cost, EnvelopeOf(t).cost) then [CostClassExceeded]
               else if ExceedsBound(p.latency, EnvelopeOf(t).latency) then [LatencyClassExceeded]
               else []
  }
}
