/** Feature extraction and composite scoring of one shipment. */
module Scoring {
  import opened Prelude
  import opened RouteGraphs
  import Propagation

  /** Times are in milliseconds. */
  datatype ShipmentRoute = ShipmentRoute(
    id: Id,
    productId: string,
    plannedPath: seq<Id>,
    actualPath: seq<Id>,
    currentNodeId: Option<Id>,
    status: string,
    plannedArrivalAt: Option<int>,
    departedAt: Option<int>,
    createdAt: int)

  datatype ShipmentFeatures = ShipmentFeatures(
    elapsedHours: real,
    plannedHours: real,
    transitZScore: real,
    pathCompletionRatio: real,
    pathDeviationCount: nat,
    maxIotAnomaly: real,
    neighbourSignal: real,
    downstreamDisruption: bool,
    worstEdgeDelayRate: real)

  datatype SubScores = SubScores(temporal: real, path: real, environmental: real, graph: real)

  datatype RiskLevel = Low | Medium | High | Critical

  datatype ScoreSummary = ScoreSummary(compositeScore: real, riskLevel: RiskLevel, subScores: SubScores)

  /** Integer division that truncates toward zero. */
  function TruncDiv(a: int, b: nat): int
    requires b > 0
  {
    if a >= 0 then a / b else -((-a) / b)
  }

  /** `(to - from).num_minutes() as f64 / 60.0` */
  function HoursBetween(from: int, to: int): real {
    TruncDiv(to - from, 60_000) as real / 60.0
  }

  /** `fold(0.0, f64::max)` */
  function MaxFromZero(xs: seq<real>): (r: real)
    ensures r >= 0.0
    ensures forall i :: 0 <= i < |xs| ==> xs[i] <= r
  {
    if xs == [] then 0.0 else Max(xs[0], MaxFromZero(xs[1..]))
  }

  function StddevsOf(edges: seq<RouteEdge>): seq<real> {
    seq(|edges|, i requires 0 <= i < |edges| => edges[i].stddevTransitHours)
  }

  function DelayRatesOf(edges: seq<RouteEdge>): seq<real> {
    seq(|edges|, i requires 0 <= i < |edges| => edges[i].historicalDelayRate)
  }

  function TransitZScore(elapsed: real, planned: real, edges: seq<RouteEdge>): real {
    if planned > 0.0 then
      (elapsed - planned) / Max(MaxFromZero(StddevsOf(edges)), planned * 0.10)
    else 0.0
  }

  function CountOffPlan(actual: seq<Id>, planned: seq<Id>): nat {
    if actual == [] then 0
    else (if actual[0] in planned then 0 else 1) + CountOffPlan(actual[1..], planned)
  }

  /** `position(..).unwrap_or(0)` */
  function PositionOrZero(path: seq<Id>, id: Id): (r: nat)
    ensures path != [] ==> r < |path|
    ensures path == [] ==> r == 0
    ensures id in path ==> path[r] == id && id !in path[..r]
    ensures id !in path ==> r == 0
  {
    if path == [] || path[0] == id || id !in path then 0
    else 1 + PositionOrZero(path[1..], id)
  }

  /** The edge rows found for consecutive stops: `windows(2).filter_map(edge)`. */
  function LegEdges(edges: seq<RouteEdge>, path: seq<Id>): seq<RouteEdge> {
    if |path| < 2 then []
    else
      var rest := LegEdges(edges, path[1..]);
      match FindEdge(edges, path[0], path[1])
      case None => rest
      case Some(e) => [e] + rest
  }

  /** Signals of the visited nodes that still exist. */
  function VisitedSignals(nodes: seq<RouteNode>, path: seq<Id>): seq<real> {
    if path == [] then []
    else
      var rest := VisitedSignals(nodes, path[1..]);
      match FindNode(nodes, path[0])
      case None => rest
      case Some(n) => [n.anomalySignal] + rest
  }

  function NeighbourSignal(g: RouteGraph, id: Id): real {
    var ns := Neighbours(g.nodes, g.edges, id);
    if ns == [] then 0.0 else Propagation.MeanSignal(ns)
  }

  function ExtractFeatures(route: ShipmentRoute, g: RouteGraph, now: int): ShipmentFeatures {
    var departed := match route.departedAt case Some(t) => t case None => route.createdAt;
    var elapsed := HoursBetween(departed, now);
    var planned := match route.plannedArrivalAt case Some(t) => HoursBetween(departed, t) case None => 0.0;
    var (signal, worst, disrupted) :=
      match route.currentNodeId
      case None => (0.0, 0.0, false)
      case Some(cur) =>
        var legs := LegEdges(g.edges, route.plannedPath[PositionOrZero(route.plannedPath, cur)..]);
        (NeighbourSignal(g, cur), MaxFromZero(DelayRatesOf(legs)), exists e :: e in legs && e.isDisrupted);
    ShipmentFeatures(
      elapsed,
      planned,
      TransitZScore(elapsed, planned, g.edges),
      if route.plannedPath == [] then 0.0 else |route.actualPath| as real / |route.plannedPath| as real,
      CountOffPlan(route.actualPath, route.plannedPath),
      MaxFromZero(VisitedSignals(g.nodes, route.actualPath)),
      signal,
      disrupted,
      worst)
  }

  function FromScore(score: real): (r: RiskLevel)
    ensures r == High || r == Critical <==> score >= 0.60
    ensures r == Low <==> score < 0.35
  {
    if score >= 0.85 then Critical
    else if score >= 0.60 then High
    else if score >= 0.35 then Medium
    else Low
  }

  /** The weighted blend before its final clamp. */
  function Blend(s: SubScores): real {
    0.35 * s.temporal + 0.25 * s.path + 0.20 * s.environmental + 0.20 * s.graph
  }

  /** `compute_score`, with the logistic function left abstract as `sigmoid`. */
  function ComputeScore(sigmoid: real -> real, f: ShipmentFeatures): ScoreSummary {
    var temporal := Min(sigmoid(f.transitZScore), 1.0);
    var deviation := Clamp01(f.pathDeviationCount as real / Max(5.0, 1.0)) + if f.downstreamDisruption then 0.30 else 0.0;
    var subs := SubScores(temporal, Clamp01(deviation), Clamp01(f.maxIotAnomaly),
                          Clamp01(f.neighbourSignal + f.worstEdgeDelayRate * 0.5));
    var composite := Clamp01(Blend(subs));
    ScoreSummary(composite, FromScore(composite), subs)
  }

  function Score(sigmoid: real -> real, route: ShipmentRoute, g: RouteGraph, now: int): ScoreSummary {
    ComputeScore(sigmoid, ExtractFeatures(route, g, now))
  }

  /** All that scoring needs to know of the logistic function. */
  ghost predicate IntoUnitInterval(sigmoid: real -> real) {
    forall x :: 0.0 < sigmoid(x) < 1.0
  }

  /** Least and greatest of the four sub-scores bound the composite, so its clamp changes nothing. */
  lemma CompositeBetweenSubScores(sigmoid: real -> real, f: ShipmentFeatures)
    requires IntoUnitInterval(sigmoid)
    ensures var s := ComputeScore(sigmoid, f);
            var u := s.subScores;
            && s.compositeScore == Blend(u)
            && Min(Min(u.temporal, u.path), Min(u.environmental, u.graph)) <= s.compositeScore
            && s.compositeScore <= Max(Max(u.temporal, u.path), Max(u.environmental, u.graph))
  {
    var u := ComputeScore(sigmoid, f).subScores;
    assert 0.0 <= u.temporal <= 1.0;
  }

  /** Without any one of its sub-scores, a score that raises an alert still stands at 0.25: no alert rests on one signal. */
  lemma AlertNeedsCorroboration(sigmoid: real -> real, f: ShipmentFeatures)
    requires IntoUnitInterval(sigmoid)
    requires var r := ComputeScore(sigmoid, f).riskLevel; r == High || r == Critical
    ensures var u := ComputeScore(sigmoid, f).subScores;
            && Blend(u.(temporal := 0.0)) >= 0.25 && Blend(u.(path := 0.0)) >= 0.35
            && Blend(u.(environmental := 0.0)) >= 0.40 && Blend(u.(graph := 0.0)) >= 0.40
            && (ComputeScore(sigmoid, f).riskLevel == Critical ==>
                  && Blend(u.(temporal := 0.0)) >= 0.50 && Blend(u.(path := 0.0)) >= 0.60
                  && Blend(u.(environmental := 0.0)) >= 0.65 && Blend(u.(graph := 0.0)) >= 0.65)
  {
    CompositeBetweenSubScores(sigmoid, f);
  }

  // ---- What the features measure ----

  lemma {:induction false} LegEdgesAre(edges: seq<RouteEdge>, path: seq<Id>, e: RouteEdge)
    ensures e in LegEdges(edges, path) <==> IsLeg(edges, path, e)
  {
    if |path| >= 2 {
      LegEdgesAre(edges, path[1..], e);
      if i :| 0 <= i < |path| - 1 && FindEdge(edges, path[i], path[i + 1]) == Some(e) {
        if i > 0 {
          assert path[1..][i - 1] == path[i] && path[1..][(i - 1) + 1] == path[i + 1];
        }
      }
      if i :| 0 <= i < |path[1..]| - 1 && FindEdge(edges, path[1..][i], path[1..][i + 1]) == Some(e) {
        assert path[1..][i] == path[i + 1] && path[1..][i + 1] == path[(i + 1) + 1];
      }
    }
  }

  lemma {:induction false} MaxFromZeroIsMax(xs: seq<real>)
    ensures MaxFromZero(xs) == 0.0 || MaxFromZero(xs) in xs
  {
    if xs == [] {
    } else {
      MaxFromZeroIsMax(xs[1..]);
    }
  }

  /** `r` is the largest of the values that `measured` admits, or zero when none is positive. */
  ghost predicate IsLargest(r: real, measured: real -> bool) {
    && r >= 0.0 && (forall x :: measured(x) ==> x <= r) && (r > 0.0 ==> measured(r))
  }

  /** The edge is the row found for two consecutive stops of the path. */
  ghost predicate IsLeg(edges: seq<RouteEdge>, path: seq<Id>, e: RouteEdge) {
    exists i :: 0 <= i < |path| - 1 && FindEdge(edges, path[i], path[i + 1]) == Some(e)
  }

  /** The stops from the current node's first planned visit on, or all of them when it was not planned. */
  function Ahead(route: ShipmentRoute): seq<Id>
    requires route.currentNodeId.Some?
  {
    route.plannedPath[PositionOrZero(route.plannedPath, route.currentNodeId.value)..]
  }

  /** The delay feature is the worst rate on a leg still ahead; disruption is a disrupted leg still ahead. */
  lemma LegFeatures(route: ShipmentRoute, g: RouteGraph, now: int)
    requires route.currentNodeId.Some?
    ensures var f, ahead := ExtractFeatures(route, g, now), Ahead(route);
            && IsLargest(f.worstEdgeDelayRate, x => exists e :: IsLeg(g.edges, ahead, e) && e.historicalDelayRate == x)
            && (f.downstreamDisruption <==> exists e :: IsLeg(g.edges, ahead, e) && e.isDisrupted)
  {
    var ahead := Ahead(route);
    var legs := LegEdges(g.edges, ahead);
    forall e
      ensures e in legs <==> IsLeg(g.edges, ahead, e)
    {
      LegEdgesAre(g.edges, ahead, e);
    }
    WorstRateIsLargest(legs);
  }

  lemma WorstRateIsLargest(legs: seq<RouteEdge>)
    ensures forall e :: e in legs ==> e.historicalDelayRate <= MaxFromZero(DelayRatesOf(legs))
    ensures MaxFromZero(DelayRatesOf(legs)) > 0.0 ==>
              exists e :: e in legs && e.historicalDelayRate == MaxFromZero(DelayRatesOf(legs))
  {
    var rates := DelayRatesOf(legs);
    MaxFromZeroIsMax(rates);
    forall e | e in legs
      ensures e.historicalDelayRate <= MaxFromZero(rates)
    {
      var i :| 0 <= i < |legs| && legs[i] == e;
      assert rates[i] == e.historicalDelayRate;
    }
    if MaxFromZero(rates) > 0.0 {
      var i :| 0 <= i < |rates| && rates[i] == MaxFromZero(rates);
      assert legs[i] in legs;
    }
  }

  /** Some node of the path that still exists carries the signal `x`. */
  ghost predicate IsVisitedSignal(nodes: seq<RouteNode>, path: seq<Id>, x: real) {
    exists i :: 0 <= i < |path| && FindNode(nodes, path[i]).Some? && FindNode(nodes, path[i]).value.anomalySignal == x
  }

  lemma {:induction false} VisitedSignalsAre(nodes: seq<RouteNode>, path: seq<Id>, x: real)
    ensures x in VisitedSignals(nodes, path) <==> IsVisitedSignal(nodes, path, x)
  {
    if path == [] {
    } else {
      var rest := path[1..];
      VisitedSignalsAre(nodes, rest, x);
      if i :| 0 <= i < |rest| && FindNode(nodes, rest[i]).Some? && FindNode(nodes, rest[i]).value.anomalySignal == x {
        assert path[i + 1] == rest[i];
      }
      if i :| 1 <= i < |path| && FindNode(nodes, path[i]).Some? && FindNode(nodes, path[i]).value.anomalySignal == x {
        assert rest[i - 1] == path[i];
      }
    }
  }

  /** The sensor feature is the largest signal among the visited nodes that still exist. */
  lemma SensorFeature(route: ShipmentRoute, g: RouteGraph, now: int)
    ensures IsLargest(ExtractFeatures(route, g, now).maxIotAnomaly, x => IsVisitedSignal(g.nodes, route.actualPath, x))
  {
    var signals := VisitedSignals(g.nodes, route.actualPath);
    var largest := MaxFromZero(signals);
    MaxFromZeroIsMax(signals);
    forall x | IsVisitedSignal(g.nodes, route.actualPath, x)
      ensures x <= largest
    {
      VisitedSignalsAre(g.nodes, route.actualPath, x);
    }
    VisitedSignalsAre(g.nodes, route.actualPath, largest);
  }

  /** The indices of the visited stops that were not planned. */
  ghost function OffPlanStops(actual: seq<Id>, planned: seq<Id>): set<nat> {
    set i: nat | i < |actual| && actual[i] !in planned
  }

  lemma {:induction false} OffPlanCount(actual: seq<Id>, planned: seq<Id>)
    ensures CountOffPlan(actual, planned) == |OffPlanStops(actual, planned)|
  {
    if actual == [] {
      assert OffPlanStops(actual, planned) == {};
    } else {
      var n := |actual| - 1;
      OffPlanJoin(actual[..n], [actual[n]], planned);
      assert actual == actual[..n] + [actual[n]];
      OffPlanCount(actual[..n], planned);
      assert OffPlanStops(actual, planned)
          == OffPlanStops(actual[..n], planned) + if actual[n] in planned then {} else {n};
    }
  }

  /** The deviation feature counts the visited stops that were not planned; completion is visited over planned stops. */
  lemma PathFeatures(route: ShipmentRoute, g: RouteGraph, now: int)
    ensures var f := ExtractFeatures(route, g, now);
            && f.pathDeviationCount == |OffPlanStops(route.actualPath, route.plannedPath)|
            && (if route.plannedPath == [] then f.pathCompletionRatio == 0.0
                else f.pathCompletionRatio * |route.plannedPath| as real == |route.actualPath| as real)
  {
    OffPlanCount(route.actualPath, route.plannedPath);
  }

  /** The neighbour feature is the mean of the current node's neighbours, or zero without any or without a current node. */
  lemma NeighbourFeature(route: ShipmentRoute, g: RouteGraph, now: int)
    ensures var f := ExtractFeatures(route, g, now);
            match route.currentNodeId
            case None => f.neighbourSignal == 0.0 && f.worstEdgeDelayRate == 0.0 && !f.downstreamDisruption
            case Some(id) =>
              var ns := Neighbours(g.nodes, g.edges, id);
              if ns == [] then f.neighbourSignal == 0.0 else Propagation.IsMean(f.neighbourSignal, Propagation.Signals(ns))
  {
    if route.currentNodeId.Some? {
      var ns := Neighbours(g.nodes, g.edges, route.currentNodeId.value);
      if ns != [] {
        Propagation.MeanExists(Propagation.Signals(ns));
      }
    }
  }

  lemma {:induction false} OffPlanJoin(a: seq<Id>, b: seq<Id>, planned: seq<Id>)
    ensures CountOffPlan(a + b, planned) == CountOffPlan(a, planned) + CountOffPlan(b, planned)
  {
    if a == [] {
      assert a + b == b;
    } else {
      assert (a + b)[1..] == a[1..] + b;
      OffPlanJoin(a[1..], b, planned);
    }
  }

  // ---- Lateness ----

  /** The largest of a tenth of the planned time and every edge's deviation. */
  ghost predicate IsDelayUnit(unit: real, planned: real, edges: seq<RouteEdge>) {
    && unit >= planned * 0.10
    && (forall e :: e in edges ==> unit >= e.stddevTransitHours)
    && (unit == planned * 0.10 || exists e :: e in edges && unit == e.stddevTransitHours)
  }

  lemma ZScoreCountsUnits(elapsed: real, planned: real, edges: seq<RouteEdge>, unit: real)
    requires IsDelayUnit(unit, planned, edges)
    ensures planned > 0.0 ==> TransitZScore(elapsed, planned, edges) * unit == elapsed - planned
    ensures planned <= 0.0 ==> TransitZScore(elapsed, planned, edges) == 0.0
  {
    if planned <= 0.0 {
      return;
    }
    var deviations := StddevsOf(edges);
    var worst := MaxFromZero(deviations);
    MaxFromZeroIsMax(deviations);
    forall e | e in edges
      ensures e.stddevTransitHours <= worst
    {
      var i :| 0 <= i < |edges| && edges[i] == e;
      assert deviations[i] == e.stddevTransitHours;
    }
    if worst > 0.0 {
      var i :| 0 <= i < |deviations| && deviations[i] == worst;
      assert edges[i] in edges;
    }
    assert unit == Max(worst, planned * 0.10);
    assert (elapsed - planned) / unit * unit == elapsed - planned;
  }

  /** `hours` is the time between two instants in whole minutes, the rest dropped. */
  ghost predicate IsHours(hours: real, from: int, to: int) {
    exists m: int :: IsWholeMinutes(m, from, to) && hours * 60.0 == m as real
  }

  ghost predicate IsWholeMinutes(m: int, from: int, to: int) {
    if from <= to then m * 60_000 <= to - from < (m + 1) * 60_000 else (m - 1) * 60_000 < to - from <= m * 60_000
  }

  lemma HoursAreWholeMinutes(from: int, to: int)
    ensures IsHours(HoursBetween(from, to), from, to)
  {
    var m := TruncDiv(to - from, 60_000);
    assert IsWholeMinutes(m, from, to);
    assert HoursBetween(from, to) * 60.0 == m as real;
  }

  /** When a shipment set out: its departure, or its creation if none is known. */
  function StartOf(route: ShipmentRoute): int {
    if route.departedAt == None then route.createdAt else route.departedAt.value
  }

  /** Elapsed time runs from the start to now, planned time from the same start to the planned arrival. */
  lemma TimeFeatures(route: ShipmentRoute, g: RouteGraph, now: int)
    ensures var f := ExtractFeatures(route, g, now);
            && IsHours(f.elapsedHours, StartOf(route), now)
            && (if route.plannedArrivalAt == None then f.plannedHours == 0.0
                else IsHours(f.plannedHours, StartOf(route), route.plannedArrivalAt.value))
  {
    HoursAreWholeMinutes(StartOf(route), now);
    if route.plannedArrivalAt.Some? {
      HoursAreWholeMinutes(StartOf(route), route.plannedArrivalAt.value);
    }
  }

  /** The z-score feature is the delay, counted in that unit, or zero when no time is planned. */
  lemma ZScoreMeasuresLateness(route: ShipmentRoute, g: RouteGraph, now: int, unit: real)
    requires IsDelayUnit(unit, ExtractFeatures(route, g, now).plannedHours, g.edges)
    ensures var f := ExtractFeatures(route, g, now);
            && (f.plannedHours > 0.0 ==> f.transitZScore * unit == f.elapsedHours - f.plannedHours)
            && (f.plannedHours <= 0.0 ==> f.transitZScore == 0.0)
  {
    var f := ExtractFeatures(route, g, now);
    ZScoreCountsUnits(f.elapsedHours, f.plannedHours, g.edges, unit);
  }

  // ---- From features to the composite ----

  /** Five deviations or more fill the path score; a disruption ahead adds three tenths; the score stops at one. */
  lemma PathScoreIs(sigmoid: real -> real, f: ShipmentFeatures)
    ensures var path, n, d := ComputeScore(sigmoid, f).subScores.path, f.pathDeviationCount, f.downstreamDisruption;
            && (n >= 5 || (d && n == 4) ==> path == 1.0)
            && (n < 5 && !d ==> 10.0 * path == 2.0 * n as real)
            && (n < 4 && d ==> 10.0 * path == 2.0 * n as real + 3.0)
  {
  }

  /** The other sub-scores: lateness through the logistic function, the sensor signal, and neighbours with half the delay rate. */
  lemma OtherScoresAre(sigmoid: real -> real, f: ShipmentFeatures)
    requires IntoUnitInterval(sigmoid)
    requires 0.0 <= f.maxIotAnomaly <= 1.0 && 0.0 <= f.neighbourSignal && 0.0 <= f.worstEdgeDelayRate
    ensures var u := ComputeScore(sigmoid, f).subScores;
            && u.temporal == sigmoid(f.transitZScore)
            && u.environmental == f.maxIotAnomaly
            && (2.0 * u.graph == 2.0 * f.neighbourSignal + f.worstEdgeDelayRate || u.graph == 1.0)
            && (u.graph == 1.0 <==> 2.0 * f.neighbourSignal + f.worstEdgeDelayRate >= 2.0)
  {
  }

  /** Of twenty parts lateness has seven, the path five, sensors and neighbours four each; the level follows the composite. */
  lemma CompositeIsWeighted(sigmoid: real -> real, f: ShipmentFeatures)
    requires IntoUnitInterval(sigmoid)
    ensures var s := ComputeScore(sigmoid, f);
            var u := s.subScores;
            && 20.0 * s.compositeScore == 7.0 * u.temporal + 5.0 * u.path + 4.0 * u.environmental + 4.0 * u.graph
            && (s.riskLevel == Low <==> 20.0 * s.compositeScore < 7.0)
            && (s.riskLevel == Medium <==> 7.0 <= 20.0 * s.compositeScore < 12.0)
            && (s.riskLevel == High <==> 12.0 <= 20.0 * s.compositeScore < 17.0)
            && (s.riskLevel == Critical <==> 17.0 <= 20.0 * s.compositeScore)
  {
    CompositeBetweenSubScores(sigmoid, f);
  }

  ghost predicate Increasing(f: real -> real) {
    forall x, y :: x <= y ==> f(x) <= f(y)
  }

  lemma TruncDivMonotone(a: int, b: int)
    requires a <= b
    ensures TruncDiv(a, 60_000) <= TruncDiv(b, 60_000)
  {
  }

  lemma ZScoreGrows(elapsed: real, later: real, planned: real, edges: seq<RouteEdge>)
    requires elapsed <= later
    ensures TransitZScore(elapsed, planned, edges) <= TransitZScore(later, planned, edges)
  {
    if planned > 0.0 {
      DivideMonotone(elapsed - planned, later - planned, Max(MaxFromZero(StddevsOf(edges)), planned * 0.10));
    }
  }

  /** While nothing else happens, the passing of time alone never lowers a shipment's score. */
  lemma ScoreGrowsWithTime(sigmoid: real -> real, route: ShipmentRoute, g: RouteGraph, now: int, later: int)
    requires Increasing(sigmoid) && now <= later
    ensures Score(sigmoid, route, g, now).compositeScore <= Score(sigmoid, route, g, later).compositeScore
  {
    var departed := match route.departedAt case Some(t) => t case None => route.createdAt;
    TruncDivMonotone(now - departed, later - departed);
    var a, b := ExtractFeatures(route, g, now), ExtractFeatures(route, g, later);
    assert a.elapsedHours <= b.elapsedHours;
    ZScoreGrows(a.elapsedHours, b.elapsedHours, a.plannedHours, g.edges);
    assert sigmoid(a.transitZScore) <= sigmoid(b.transitZScore);
  }

  // ---- Raising a signal never lowers a score ----

  lemma {:induction false} VisitedSignalsCorrespond(g: RouteGraph, h: RouteGraph, path: seq<Id>)
    requires SignalsAtMost(g, h)
    ensures |VisitedSignals(g.nodes, path)| == |VisitedSignals(h.nodes, path)|
    ensures forall i :: 0 <= i < |VisitedSignals(g.nodes, path)| ==>
              VisitedSignals(g.nodes, path)[i] <= VisitedSignals(h.nodes, path)[i]
  {
    if path == [] {
    } else {
      VisitedSignalsCorrespond(g, h, path[1..]);
      SameTopologyFinds(g, h, path[0]);
    }
  }

  lemma {:induction false} MaxFromZeroMonotone(a: seq<real>, b: seq<real>)
    requires |a| == |b| && forall i :: 0 <= i < |a| ==> a[i] <= b[i]
    ensures MaxFromZero(a) <= MaxFromZero(b)
  {
    if a == [] {
    } else {
      MaxFromZeroMonotone(a[1..], b[1..]);
    }
  }

  lemma NeighbourSignalMonotone(g: RouteGraph, h: RouteGraph, id: Id)
    requires SignalsAtMost(g, h)
    ensures NeighbourSignal(g, id) <= NeighbourSignal(h, id)
  {
    NeighboursCorrespond(g, h, g.edges, id);
    var a, b := Neighbours(g.nodes, g.edges, id), Neighbours(h.nodes, h.edges, id);
    var at := NeighbourPositions(g.nodes, g.edges, id);
    assert forall i :: 0 <= i < |a| ==> a[i] == g.nodes[at[i]] && b[i] == h.nodes[at[i]];
    if a != [] {
      Propagation.MeanMonotone(a, b);
    }
  }

  /** Raising node signals can only raise a shipment's features, and only the two signal features move. */
  lemma FeaturesMonotone(route: ShipmentRoute, g: RouteGraph, h: RouteGraph, now: int)
    requires SignalsAtMost(g, h)
    ensures var a, b := ExtractFeatures(route, g, now), ExtractFeatures(route, h, now);
            && a.maxIotAnomaly <= b.maxIotAnomaly && a.neighbourSignal <= b.neighbourSignal
            && b.(maxIotAnomaly := a.maxIotAnomaly, neighbourSignal := a.neighbourSignal) == a
  {
    VisitedSignalsCorrespond(g, h, route.actualPath);
    MaxFromZeroMonotone(VisitedSignals(g.nodes, route.actualPath), VisitedSignals(h.nodes, route.actualPath));
    if route.currentNodeId.Some? {
      NeighbourSignalMonotone(g, h, route.currentNodeId.value);
    }
  }

  lemma ScoreMonotone(sigmoid: real -> real, route: ShipmentRoute, g: RouteGraph, h: RouteGraph, now: int)
    requires SignalsAtMost(g, h)
    ensures Score(sigmoid, route, g, now).compositeScore <= Score(sigmoid, route, h, now).compositeScore
  {
    FeaturesMonotone(route, g, h, now);
  }

  /** Raising signals never lowers a composite score, immediately or after any number of propagation rounds. */
  lemma ScoreMonotoneAfterRounds(
    sigmoid: real -> real, route: ShipmentRoute, g: RouteGraph, h: RouteGraph, now: int, k: nat)
    requires SignalsAtMost(g, h)
    ensures Score(sigmoid, route, Propagation.Rounds(g, k), now).compositeScore
         <= Score(sigmoid, route, Propagation.Rounds(h, k), now).compositeScore
  {
    Propagation.RoundsMonotone(g, h, k);
    ScoreMonotone(sigmoid, route, Propagation.Rounds(g, k), Propagation.Rounds(h, k), now);
  }

  /** Waiting never helps: with non-negative signals a score can only grow as rounds go by. */
  lemma ScoreGrowsWithRounds(sigmoid: real -> real, route: ShipmentRoute, g: RouteGraph, now: int, k: nat, top: real)
    requires Propagation.SignalsWithin(g, 0.0, top)
    ensures Score(sigmoid, route, g, now).compositeScore
         <= Score(sigmoid, route, Propagation.Rounds(g, k), now).compositeScore
  {
    Propagation.RoundsNeverDecrease(g, k, top);
    ScoreMonotone(sigmoid, route, g, Propagation.Rounds(g, k), now);
  }
}
