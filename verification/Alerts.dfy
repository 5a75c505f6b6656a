/** Persisted scores and the alerts they raise. */
module Alerts {
  import opened Prelude
  import opened RouteGraphs
  import opened Scoring

  const HOUR: int := 3_600_000

  datatype AlertType = DelayPredicted | RouteDisruption | EnvAnomaly | CriticalRisk

  datatype AlertStatus = Open | Acknowledged | Resolved

  datatype ScoreRow = ScoreRow(
    routeId: Id,
    productId: string,
    features: ShipmentFeatures,
    summary: ScoreSummary,
    computedAt: int)

  datatype Alert = Alert(
    id: nat,
    routeId: Id,
    productId: string,
    alertType: AlertType,
    severity: string,
    status: AlertStatus,
    triggeredScore: real,
    createdAt: int)

  /** The two tables; fresh alert ids come from a counter. */
  datatype Desk = Desk(scores: seq<ScoreRow>, alerts: seq<Alert>, nextId: nat)

  const EMPTY: Desk := Desk([], [], 0)

  /** An open alert of the last hour, of whatever type, keeps its route from raising another. */
  predicate IsMuted(alerts: seq<Alert>, routeId: Id, now: int) {
    exists a :: a in alerts && a.routeId == routeId && a.status == Open && a.createdAt > now - HOUR
  }

  function Kind(s: ScoreSummary): (AlertType, string) {
    if s.compositeScore >= 0.85 then (CriticalRisk, "critical")
    else if s.subScores.environmental >= 0.70 then (EnvAnomaly, "high")
    else if s.subScores.path >= 0.60 then (RouteDisruption, "high")
    else (DelayPredicted, "medium")
  }

  /** `generate_alert` */
  function Alerted(d: Desk, route: ShipmentRoute, s: ScoreSummary, now: int): Desk {
    if IsMuted(d.alerts, route.id, now) then d
    else
      var (alertType, severity) := Kind(s);
      d.(alerts := d.alerts
                   + [Alert(d.nextId, route.id, route.productId, alertType, severity, Open, s.compositeScore, now)],
         nextId := d.nextId + 1)
  }

  /** `persist_score`, and an alert when the score reaches the threshold. */
  function Recorded(d: Desk, route: ShipmentRoute, f: ShipmentFeatures, s: ScoreSummary, now: int): Desk {
    var kept := d.(scores := d.scores + [ScoreRow(route.id, route.productId, f, s, now)]);
    if s.compositeScore >= 0.60 then Alerted(kept, route, s, now) else kept
  }

  /** `acknowledge_alert` and `resolve_alert`, from any status; an unknown id changes nothing. */
  function WithStatus(alerts: seq<Alert>, id: nat, status: AlertStatus): (r: seq<Alert>)
    ensures |r| == |alerts|
    ensures forall i :: 0 <= i < |r| ==> r[i] == if alerts[i].id == id then alerts[i].(status := status) else alerts[i]
  {
    seq(|alerts|, i requires 0 <= i < |alerts| => if alerts[i].id == id then alerts[i].(status := status) else alerts[i])
  }

  /** Scores and alerts go with their route rows. */
  function AlertsWithout(alerts: seq<Alert>, gone: set<Id>): (r: seq<Alert>)
    ensures forall a :: a in r <==> a in alerts && a.routeId !in gone
  {
    if alerts == [] then []
    else
      var before, last := AlertsWithout(alerts[..|alerts| - 1], gone), alerts[|alerts| - 1];
      if last.routeId in gone then before else before + [last]
  }

  function ScoresWithout(scores: seq<ScoreRow>, gone: set<Id>): (r: seq<ScoreRow>)
    ensures forall s :: s in r <==> s in scores && s.routeId !in gone
  {
    if scores == [] then []
    else
      var before, last := ScoresWithout(scores[..|scores| - 1], gone), scores[|scores| - 1];
      if last.routeId in gone then before else before + [last]
  }

  datatype DeskOp =
    | Record(route: ShipmentRoute, features: ShipmentFeatures, summary: ScoreSummary, now: int)
    | Acknowledge(id: nat)
    | Resolve(id: nat)
    | RoutesGone(gone: set<Id>)

  function Apply(d: Desk, op: DeskOp): Desk {
    match op
    case Record(route, f, s, now) => Recorded(d, route, f, s, now)
    case Acknowledge(id) => d.(alerts := WithStatus(d.alerts, id, Acknowledged))
    case Resolve(id) => d.(alerts := WithStatus(d.alerts, id, Resolved))
    case RoutesGone(gone) => d.(scores := ScoresWithout(d.scores, gone), alerts := AlertsWithout(d.alerts, gone))
  }

  function Run(d: Desk, ops: seq<DeskOp>): Desk {
    if ops == [] then d else Apply(Run(d, ops[..|ops| - 1]), ops[|ops| - 1])
  }

  // ---- Alerts do not pile up ----

  /** No alert was raised within an hour after an alert of its route that is still open. */
  ghost predicate Spaced(alerts: seq<Alert>) {
    forall i, j :: 0 <= i < j < |alerts| && alerts[i].routeId == alerts[j].routeId && alerts[i].status == Open ==>
      alerts[i].createdAt + HOUR <= alerts[j].createdAt
  }

  lemma SpacedAppend(alerts: seq<Alert>, a: Alert)
    requires Spaced(alerts)
    requires forall x :: x in alerts && x.routeId == a.routeId && x.status == Open ==> x.createdAt + HOUR <= a.createdAt
    ensures Spaced(alerts + [a])
  {
  }

  lemma {:induction false} SpacedWithout(alerts: seq<Alert>, gone: set<Id>)
    requires Spaced(alerts)
    ensures Spaced(AlertsWithout(alerts, gone))
  {
    if alerts == [] {
    } else {
      var init, last := alerts[..|alerts| - 1], alerts[|alerts| - 1];
      SpacedWithout(init, gone);
      if last.routeId !in gone {
        forall x | x in AlertsWithout(init, gone) && x.routeId == last.routeId && x.status == Open
          ensures x.createdAt + HOUR <= last.createdAt
        {
          var i :| 0 <= i < |init| && init[i] == x;
          assert alerts[i] == x;
        }
        SpacedAppend(AlertsWithout(init, gone), last);
      }
    }
  }

  lemma ApplyKeepsSpaced(d: Desk, op: DeskOp)
    requires Spaced(d.alerts)
    ensures Spaced(Apply(d, op).alerts)
  {
    match op {
      case Record(route, f, s, now) =>
        if s.compositeScore >= 0.60 && !IsMuted(d.alerts, route.id, now) {
          var (alertType, severity) := Kind(s);
          SpacedAppend(d.alerts, Alert(d.nextId, route.id, route.productId, alertType, severity, Open, s.compositeScore, now));
        }
      case Acknowledge(_) =>
      case Resolve(_) =>
      case RoutesGone(gone) => SpacedWithout(d.alerts, gone);
    }
  }

  lemma OneMoreRecord(d: Desk, ops: seq<DeskOp>, i: nat)
    requires i < |ops|
    ensures Run(d, ops[..i + 1]) == Apply(Run(d, ops[..i]), ops[i])
  {
    assert ops[..i + 1][..i] == ops[..i];
  }

  lemma {:induction false} RunKeepsSpaced(d: Desk, ops: seq<DeskOp>)
    requires Spaced(d.alerts)
    ensures Spaced(Run(d, ops).alerts)
  {
    if ops == [] {
    } else {
      RunKeepsSpaced(d, ops[..|ops| - 1]);
      ApplyKeepsSpaced(Run(d, ops[..|ops| - 1]), ops[|ops| - 1]);
    }
  }

  /** After any run, whatever the clock did, no alert follows an open one of its route within the hour. */
  lemma OpenAlertsAreSpaced(ops: seq<DeskOp>)
    ensures Spaced(Run(EMPTY, ops).alerts)
  {
    RunKeepsSpaced(EMPTY, ops);
  }

  /** A recorded score leaves its route with an open alert of the last hour if it is high; otherwise no alert changes. */
  lemma HighScoreHasAlert(d: Desk, route: ShipmentRoute, f: ShipmentFeatures, s: ScoreSummary, now: int)
    ensures var after := Recorded(d, route, f, s, now).alerts;
            && (s.compositeScore >= 0.60 ==> IsMuted(after, route.id, now))
            && (s.compositeScore < 0.60 ==> after == d.alerts)
            && (IsMuted(d.alerts, route.id, now) ==> after == d.alerts)
            && d.alerts <= after && |after| <= |d.alerts| + 1
  {
    var after := Recorded(d, route, f, s, now).alerts;
    if s.compositeScore >= 0.60 && !IsMuted(d.alerts, route.id, now) {
      assert after[|d.alerts|] in after;
    }
  }

  /** The first of these that holds names the alert: a critical score, a high sensor score, a high path score; else delay. */
  lemma KindIsFirst(s: ScoreSummary)
    ensures var (alertType, severity) := Kind(s);
            var critical, env, path := s.compositeScore >= 0.85, s.subScores.environmental >= 0.70, s.subScores.path >= 0.60;
            && (alertType == CriticalRisk <==> critical)
            && (alertType == EnvAnomaly <==> !critical && env)
            && (alertType == RouteDisruption <==> !critical && !env && path)
            && (alertType == DelayPredicted <==> !critical && !env && !path)
            && (severity == "critical" <==> critical)
            && (severity == "high" <==> !critical && (env || path))
            && (severity == "medium" <==> !critical && !env && !path)
  {
    assert "critical"[0] == 'c' && "high"[0] == 'h' && "medium"[0] == 'm';
  }

  /** A score raises an alert exactly when it is high and every open alert of its route is at least an hour old. */
  lemma AlertIsRaisedIff(d: Desk, route: ShipmentRoute, f: ShipmentFeatures, s: ScoreSummary, now: int)
    ensures |Recorded(d, route, f, s, now).alerts| > |d.alerts|
            <==> s.compositeScore >= 0.60
                 && forall i :: 0 <= i < |d.alerts| && d.alerts[i].routeId == route.id && d.alerts[i].status == Open ==>
                      d.alerts[i].createdAt + HOUR <= now
  {
    if i :| 0 <= i < |d.alerts| && d.alerts[i].routeId == route.id && d.alerts[i].status == Open
            && d.alerts[i].createdAt + HOUR > now {
      assert d.alerts[i] in d.alerts;
    }
  }

  /** Ids of alerts are distinct and all used up. */
  ghost predicate IdsFresh(alerts: seq<Alert>, nextId: nat) {
    && (forall i :: 0 <= i < |alerts| ==> alerts[i].id < nextId)
    && (forall i, j :: 0 <= i < j < |alerts| ==> alerts[i].id != alerts[j].id)
  }

  lemma IdsAppend(alerts: seq<Alert>, a: Alert, nextId: nat)
    requires IdsFresh(alerts, nextId) && a.id < nextId && forall x :: x in alerts ==> x.id != a.id
    ensures IdsFresh(alerts + [a], nextId)
  {
  }

  lemma {:induction false} IdsWithout(alerts: seq<Alert>, gone: set<Id>, nextId: nat)
    requires IdsFresh(alerts, nextId)
    ensures IdsFresh(AlertsWithout(alerts, gone), nextId)
  {
    if alerts == [] {
    } else {
      var init, last := alerts[..|alerts| - 1], alerts[|alerts| - 1];
      IdsWithout(init, gone, nextId);
      if last.routeId !in gone {
        forall x | x in init
          ensures x.id != last.id
        {
          var i :| 0 <= i < |init| && init[i] == x;
          assert alerts[i] == x;
        }
        IdsAppend(AlertsWithout(init, gone), last, nextId);
      }
    }
  }

  lemma ApplyKeepsIds(d: Desk, op: DeskOp)
    requires IdsFresh(d.alerts, d.nextId)
    ensures IdsFresh(Apply(d, op).alerts, Apply(d, op).nextId)
  {
    match op {
      case RoutesGone(gone) => IdsWithout(d.alerts, gone, d.nextId);
      case _ =>
    }
  }

  lemma {:induction false} AlertIdsStayFresh(ops: seq<DeskOp>)
    ensures IdsFresh(Run(EMPTY, ops).alerts, Run(EMPTY, ops).nextId)
  {
    if ops == [] {
    } else {
      AlertIdsStayFresh(ops[..|ops| - 1]);
      ApplyKeepsIds(Run(EMPTY, ops[..|ops| - 1]), ops[|ops| - 1]);
    }
  }

  /** The scores and alerts of deleted routes go, all others stay. */
  lemma DeletedRoutesLeaveNothing(d: Desk, gone: set<Id>)
    ensures var u := Apply(d, RoutesGone(gone));
            && (forall s :: s in u.scores <==> s in d.scores && s.routeId !in gone)
            && (forall a :: a in u.alerts <==> a in d.alerts && a.routeId !in gone)
            && u.nextId == d.nextId
  {
  }

  /** A new alert is open, about its route, and carries the score that raised it. */
  lemma NewAlertIs(d: Desk, route: ShipmentRoute, f: ShipmentFeatures, s: ScoreSummary, now: int)
    requires s.compositeScore >= 0.60 && !IsMuted(d.alerts, route.id, now)
    ensures var after := Recorded(d, route, f, s, now);
            && |after.alerts| == |d.alerts| + 1 && after.alerts[..|d.alerts|] == d.alerts
            && var a := after.alerts[|d.alerts|];
               && a.routeId == route.id && a.productId == route.productId && a.status == Open
               && a.triggeredScore == s.compositeScore && a.createdAt == now
               && (a.alertType, a.severity) == Kind(s)
  {
  }

  /** Every score is kept, last, with its route and time, whether or not it raises an alert. */
  lemma ScoreIsKept(d: Desk, route: ShipmentRoute, f: ShipmentFeatures, s: ScoreSummary, now: int)
    ensures Recorded(d, route, f, s, now).scores == d.scores + [ScoreRow(route.id, route.productId, f, s, now)]
  {
  }

  /** Acknowledging and resolving set the named alert's status and change no other. */
  lemma StatusIsSet(d: Desk, id: nat, i: nat)
    requires i < |d.alerts|
    ensures var a, r := Apply(d, Acknowledge(id)), Apply(d, Resolve(id));
            && |a.alerts| == |r.alerts| == |d.alerts| && a.scores == r.scores == d.scores
            && a.alerts[i] == (if d.alerts[i].id == id then d.alerts[i].(status := Acknowledged) else d.alerts[i])
            && r.alerts[i] == (if d.alerts[i].id == id then d.alerts[i].(status := Resolved) else d.alerts[i])
  {
  }

  /**
   What the type of an alert says of the score that raised it: critical alerts are the critical scores, and a
   predicted delay is never put down to lateness without any.
   */
  lemma AlertTypeMeans(sigmoid: real -> real, f: ShipmentFeatures)
    requires IntoUnitInterval(sigmoid) && ComputeScore(sigmoid, f).compositeScore >= 0.60
    ensures var s := ComputeScore(sigmoid, f);
            var (alertType, severity) := Kind(s);
            && (alertType == CriticalRisk <==> s.riskLevel == Critical)
            && (severity == "critical" <==> s.riskLevel == Critical)
            && (alertType == DelayPredicted ==> s.subScores.temporal > 0.31)
  {
    CompositeBetweenSubScores(sigmoid, f);
    assert "critical"[0] == 'c' && "high"[0] == 'h' && "medium"[0] == 'm';
  }
}
