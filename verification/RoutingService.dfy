/** The routing service as it runs: tables updated in place, statement by statement. */
module RoutingServices {
  import opened Prelude
  import opened RouteGraphs
  import opened Scoring
  import opened RouteRegistry
  import opened Alerts
  import Propagation

  function ActiveRoutes(routes: seq<ShipmentRoute>): seq<ShipmentRoute> {
    if routes == [] then []
    else
      var before, last := ActiveRoutes(routes[..|routes| - 1]), routes[|routes| - 1];
      if last.status == "in_transit" then before + [last] else before
  }

  /** The active routes are those in transit, in order. */
  lemma {:induction false} ActiveRoutesAre(routes: seq<ShipmentRoute>) returns (at: seq<nat>)
    ensures Selected(at, routes, ActiveRoutes(routes), (r: ShipmentRoute) => r.status == "in_transit", (r: ShipmentRoute) => r)
  {
    if routes == [] {
      at := [];
    } else {
      var init, last := routes[..|routes| - 1], routes[|routes| - 1];
      var moving, same := (r: ShipmentRoute) => r.status == "in_transit", (r: ShipmentRoute) => r;
      at := ActiveRoutesAre(init);
      assert init + [last] == routes;
      if moving(last) {
        SelectedMore(at, init, ActiveRoutes(init), moving, same, last);
        at := at + [|init|];
      } else {
        SelectedNoMore(at, init, ActiveRoutes(init), moving, same, last);
      }
    }
  }

  function RouteById(routes: seq<ShipmentRoute>, id: Id): (r: Option<ShipmentRoute>)
    ensures r.Some? ==> r.value in routes && r.value.id == id
    ensures r.None? ==> forall x :: x in routes ==> x.id != id
  {
    if routes == [] then None
    else if routes[0].id == id then Some(routes[0])
    else RouteById(routes[1..], id)
  }

  /** Registering a path touches neither the routes nor the products. */
  lemma FollowedKeepsRoutes(t: Tables, req: CreateRequest)
    ensures PathRegistered(t, req).0.routes == t.routes && PathRegistered(t, req).0.products == t.products
  {
    var (t1, origin) := NodeUpserted(t, req.origin, "origin");
    var (t2, dest) := NodeUpserted(t1, req.destination, "destination");
    FollowedExtends(t2, [origin], req.waypoints);
  }

  function PairIndex(edges: seq<RouteEdge>, src: Id, dst: Id): (r: Option<nat>)
    ensures r.Some? ==> r.value < |edges| && edges[r.value].source == src && edges[r.value].dest == dst
  {
    if edges == [] then None
    else if edges[0].source == src && edges[0].dest == dst then Some(0)
    else match PairIndex(edges[1..], src, dst)
      case None => None
      case Some(i) => Some(i + 1)
  }

  function OneMore(e: RouteEdge): RouteEdge {
    e.(totalShipments := e.totalShipments + 1)
  }

  lemma {:induction false} EdgeUpsertedInPlace(edges: seq<RouteEdge>, src: Id, dst: Id)
    ensures EdgeUpserted(edges, src, dst)
         == match PairIndex(edges, src, dst)
            case Some(i) => edges[i := OneMore(edges[i])]
            case None => edges + [RouteEdge(src, dst, 0.0, 0.0, 1, false)]
  {
    if edges == [] {
    } else {
      var head, tail := edges[0], edges[1..];
      assert edges == [head] + tail;
      if head.source == src && head.dest == dst {
        assert edges[0 := OneMore(head)] == [OneMore(head)] + tail;
      } else {
        EdgeUpsertedInPlace(tail, src, dst);
        match PairIndex(tail, src, dst) {
          case Some(i) => assert edges[i + 1 := OneMore(edges[i + 1])] == [head] + tail[i := OneMore(tail[i])];
          case None =>
        }
      }
    }
  }

  /** What scoring a route writes to the desk. */
  function RecordOf(sigmoid: real -> real, route: ShipmentRoute, graph: RouteGraph, now: int): DeskOp {
    Record(route, ExtractFeatures(route, graph, now), Score(sigmoid, route, graph, now), now)
  }

  function RecordsOf(sigmoid: real -> real, active: seq<ShipmentRoute>, graph: RouteGraph, now: int): (r: seq<DeskOp>)
    ensures |r| == |active| && forall i :: 0 <= i < |r| ==> r[i] == RecordOf(sigmoid, active[i], graph, now)
  {
    seq(|active|, i requires 0 <= i < |active| => RecordOf(sigmoid, active[i], graph, now))
  }

  function RouteIds(routes: seq<ShipmentRoute>): set<Id> {
    set r | r in routes :: r.id
  }

  class RoutingService {
    const sigmoid: real -> real
    var nodes: seq<RouteNode>
    var edges: seq<RouteEdge>
    var routes: seq<ShipmentRoute>
    var products: set<string>
    var nextId: nat
    var desk: Desk
    ghost var lost: seq<seq<Id>>

    /** The tables are well formed, every count is the stored uses of its pair plus the lost ones, and alerts are spaced. */
    ghost predicate Valid()
      reads this
    {
      Invariant(Db(), lost) && Spaced(desk.alerts)
    }

    ghost function Db(): Tables
      reads this
    {
      Tables(nodes, edges, routes, products, nextId)
    }

    constructor (sigmoid: real -> real, products: set<string>)
      ensures this.sigmoid == sigmoid
      ensures Valid() && Db() == RouteRegistry.Run(products, []).0 && lost == [] && desk == Alerts.EMPTY
    {
      this.sigmoid := sigmoid;
      nodes, edges, routes, nextId := [], [], [], 0;
      this.products, lost, desk := products, [], Alerts.EMPTY;
    }

    method UpsertNode(location: string, nodeType: string) returns (id: Id)
      modifies this`nodes, this`nextId
      ensures (Db(), id) == NodeUpserted(old(Db()), location, nodeType)
    {
      var key := NormaliseLocationKey(location);
      match KeyIndex(nodes, key)
      case Some(i) => id := nodes[i].id;
      case None =>
        id := nextId;
        nodes := nodes + [RouteNode(id, key, location, nodeType, 0.0)];
        nextId := nextId + 1;
    }

    /** Raises the count of one ordered pair by one, in its row or a new one, and leaves all others. */
    method UpsertEdge(src: Id, dst: Id)
      modifies this`edges
      ensures edges == EdgeUpserted(old(edges), src, dst)
      ensures forall a, b :: EdgeTotal(edges, a, b) == EdgeTotal(old(edges), a, b) + if a == src && b == dst then 1 else 0
      ensures old(UniquePairs(edges)) ==> UniquePairs(edges)
    {
      EdgeUpsertedInPlace(edges, src, dst);
      if UniquePairs(edges) {
        EdgeUpsertedUnique(edges, src, dst);
      }
      forall a, b
        ensures EdgeTotal(EdgeUpserted(edges, src, dst), a, b)
             == EdgeTotal(edges, a, b) + if a == src && b == dst then 1 else 0
      {
        EdgeUpsertedCounts(edges, src, dst, a, b);
      }
      match PairIndex(edges, src, dst)
      case Some(i) => edges := edges[i := OneMore(edges[i])];
      case None => edges := edges + [RouteEdge(src, dst, 0.0, 0.0, 1, false)];
    }

    /** Accounts for one whole operation. */
    ghost method Account(before: Tables, op: Op)
      requires Invariant(before, lost) && Spaced(desk.alerts) && Db() == Step(before, op)
      modifies this`lost
      ensures Valid() && lost == old(lost) + LostBy(before, op)
    {
      StepKeeps(before, lost, op);
      lost := lost + LostBy(before, op);
    }

    /** Returns the stored route, or nothing when the route row is refused. */
    method CreateShipmentRoute(req: CreateRequest, now: int) returns (route: Option<ShipmentRoute>)
      requires Valid()
      modifies this
      ensures Valid() && lost == old(lost) + LostBy(old(Db()), Create(req, now))
      ensures Db() == Step(old(Db()), Create(req, now))
      ensures route.Some? == RouteCreated(old(Db()), req, now).stored
      ensures route.Some? ==> routes == old(routes) + [route.value]
      ensures desk == old(desk)
    {
      ghost var start := Db();
      var path := RegisterPath(req);
      FollowedKeepsRoutes(start, req);
      route := InsertRoute(req, path, now);
      Account(start, Create(req, now));
    }

    /** Upserts the endpoints, then every stop and the leg that reaches it. */
    method RegisterPath(req: CreateRequest) returns (waypointIds: seq<Id>)
      modifies this`nodes, this`edges, this`nextId
      ensures (Db(), waypointIds) == PathRegistered(old(Db()), req)
    {
      var origin := UpsertNode(req.origin, "origin");
      var dest := UpsertNode(req.destination, "destination");
      waypointIds := RegisterLegs(origin, dest, req.waypoints);
    }

    /** The loop over the stops with its moving previous id, and the last leg. */
    method RegisterLegs(origin: Id, dest: Id, waypoints: seq<string>) returns (waypointIds: seq<Id>)
      modifies this`nodes, this`edges, this`nextId
      ensures (Db(), waypointIds) == LegsRegistered(old(Db()), origin, dest, waypoints)
    {
      ghost var start := Db();
      waypointIds := [origin];
      var prev := origin;
      var i := 0;
      while i < |waypoints|
        invariant 0 <= i <= |waypoints|
        invariant waypointIds != [] && prev == waypointIds[|waypointIds| - 1]
        invariant Followed(Db(), waypointIds, waypoints[i..]) == Followed(start, [origin], waypoints)
      {
        var node := FollowTo(prev, waypoints[i]);
        waypointIds := waypointIds + [node];
        prev := node;
        assert waypoints[i..][1..] == waypoints[i + 1..];
        i := i + 1;
      }
      UpsertEdge(prev, dest);
      waypointIds := waypointIds + [dest];
    }

    /** The next stop, and the leg that reaches it. */
    method FollowTo(prev: Id, waypoint: string) returns (node: Id)
      modifies this`nodes, this`edges, this`nextId
      ensures var (u, id) := NodeUpserted(old(Db()), waypoint, "waypoint");
              node == id && Db() == u.(edges := EdgeUpserted(u.edges, prev, id))
    {
      node := UpsertNode(waypoint, "waypoint");
      UpsertEdge(prev, node);
    }

    /** The route row, refused when its product does not exist. */
    method InsertRoute(req: CreateRequest, path: seq<Id>, now: int) returns (route: Option<ShipmentRoute>)
      requires path != []
      modifies this`routes, this`nextId
      ensures route.Some? <==> req.productId in products
      ensures route.None? ==> routes == old(routes) && nextId == old(nextId)
      ensures route.Some? ==> routes == old(routes) + [route.value] && nextId == old(nextId) + 1
                              && route.value == NewRoute(old(nextId), req, path, now)
    {
      if req.productId in products {
        var row := NewRoute(nextId, req, path, now);
        nextId := nextId + 1;
        routes := routes + [row];
        route := Some(row);
      } else {
        route := None;
      }
    }

    /** Moves the shipment, merges the sensor signal into its node and re-scores it if the route exists. */
    method UpdatePosition(routeId: Id, location: string, iotSignal: Option<real>, now: int)
      returns (summary: Option<ScoreSummary>)
      requires Valid()
      modifies this
      ensures Valid() && lost == old(lost) + LostBy(old(Db()), Update(routeId, location, iotSignal))
      ensures Db() == Step(old(Db()), Update(routeId, location, iotSignal))
      ensures summary.Some? <==> exists r :: r in routes && r.id == routeId
      ensures summary.Some? ==>
                exists r :: r in routes && r.id == routeId
                            && summary.value == Score(sigmoid, r, RouteGraph(nodes, edges), now)
                            && desk == Alerts.Apply(old(desk), RecordOf(sigmoid, r, RouteGraph(nodes, edges), now))
      ensures summary.None? ==> desk == old(desk)
    {
      ghost var start := Db();
      MoveShipment(routeId, location, iotSignal);
      Account(start, Update(routeId, location, iotSignal));
      match RouteById(routes, routeId)
      case Some(route) =>
        var s := ScoreRoute(route, RouteGraph(nodes, edges), now);
        summary := Some(s);
      case None => summary := None;
    }

    /** The writes before the re-scoring. */
    method MoveShipment(routeId: Id, location: string, iotSignal: Option<real>)
      modifies this`nodes, this`nextId, this`routes
      ensures Db() == Step(old(Db()), Update(routeId, location, iotSignal))
    {
      var node := UpsertNode(location, "waypoint");
      routes := RoutesMoved(routes, routeId, node);
      if iotSignal.Some? {
        nodes := SignalRaised(nodes, node, Clamp01(iotSignal.value));
      }
    }

    /** Scores one route, keeps the score and raises an alert where due. */
    method ScoreRoute(route: ShipmentRoute, graph: RouteGraph, now: int) returns (summary: ScoreSummary)
      modifies this`desk
      ensures summary == Score(sigmoid, route, graph, now)
      ensures desk == Alerts.Apply(old(desk), RecordOf(sigmoid, route, graph, now))
      ensures old(Spaced(desk.alerts)) ==> Spaced(desk.alerts)
    {
      var features := ExtractFeatures(route, graph, now);
      summary := ComputeScore(sigmoid, features);
      KeepScore(route, features, summary, now);
    }

    /** Scores every active route against one snapshot, then propagates signals one hop. */
    method ScoreAllInTransit(now: int) returns (summaries: seq<ScoreSummary>)
      requires Valid()
      modifies this`nodes, this`lost, this`desk
      ensures Valid() && lost == old(lost) + LostBy(old(Db()), Op.Propagate)
      ensures Db() == Step(old(Db()), Op.Propagate)
      ensures |summaries| == |ActiveRoutes(routes)|
      ensures forall i :: 0 <= i < |summaries| ==>
                summaries[i] == Score(sigmoid, ActiveRoutes(routes)[i], RouteGraph(old(nodes), edges), now)
      ensures desk == Alerts.Run(old(desk), RecordsOf(sigmoid, ActiveRoutes(routes), RouteGraph(old(nodes), edges), now))
    {
      ghost var start := Db();
      var graph := RouteGraph(nodes, edges);
      var records := RecordsOf(sigmoid, ActiveRoutes(routes), graph, now);
      RunKeepsSpaced(desk, records);
      summaries := KeepScores(records);
      nodes := Propagation.PropagateGraphSignals(graph, nodes, edges);
      Account(start, Op.Propagate);
    }

    /** Keeps scores in turn; nothing that is kept is read by scoring. */
    method KeepScores(records: seq<DeskOp>) returns (summaries: seq<ScoreSummary>)
      requires forall r :: r in records ==> r.Record?
      modifies this`desk
      ensures desk == Alerts.Run(old(desk), records)
      ensures |summaries| == |records|
      ensures forall i :: 0 <= i < |records| ==> records[i] in records && summaries[i] == records[i].summary
    {
      summaries := [];
      var i := 0;
      while i < |records|
        invariant 0 <= i <= |records| && |summaries| == i
        invariant forall k :: 0 <= k < i ==> records[k] in records && summaries[k] == records[k].summary
        invariant desk == Alerts.Run(old(desk), records[..i])
      {
        OneMoreRecord(old(desk), records, i);
        assert records[i] in records;
        KeepScore(records[i].route, records[i].features, records[i].summary, records[i].now);
        summaries := summaries + [records[i].summary];
        i := i + 1;
      }
      assert records[..i] == records;
    }

    /** `persist_score`, and `generate_alert` where due. */
    method KeepScore(route: ShipmentRoute, features: ShipmentFeatures, summary: ScoreSummary, now: int)
      modifies this`desk
      ensures desk == Alerts.Apply(old(desk), Record(route, features, summary, now))
      ensures old(Spaced(desk.alerts)) ==> Spaced(desk.alerts)
    {
      if Spaced(desk.alerts) {
        ApplyKeepsSpaced(desk, Record(route, features, summary, now));
      }
      desk := desk.(scores := desk.scores + [ScoreRow(route.id, route.productId, features, summary, now)]);
      if summary.compositeScore >= 0.60 && !IsMuted(desk.alerts, route.id, now) {
        var (alertType, severity) := Kind(summary);
        var alert := Alert(desk.nextId, route.id, route.productId, alertType, severity, Open, summary.compositeScore, now);
        desk := desk.(alerts := desk.alerts + [alert], nextId := desk.nextId + 1);
      }
    }

    /** Marks an alert acknowledged; an unknown id is reported. */
    method AcknowledgeAlert(id: nat) returns (found: bool)
      requires Valid()
      modifies this`desk
      ensures Valid() && desk == Alerts.Apply(old(desk), Acknowledge(id))
      ensures found <==> exists a :: a in old(desk).alerts && a.id == id
    {
      found := exists a :: a in desk.alerts && a.id == id;
      ApplyKeepsSpaced(desk, Acknowledge(id));
      desk := desk.(alerts := WithStatus(desk.alerts, id, Acknowledged));
    }

    /** Marks an alert resolved; an unknown id is reported. */
    method ResolveAlert(id: nat) returns (found: bool)
      requires Valid()
      modifies this`desk
      ensures Valid() && desk == Alerts.Apply(old(desk), Resolve(id))
      ensures found <==> exists a :: a in old(desk).alerts && a.id == id
    {
      found := exists a :: a in desk.alerts && a.id == id;
      ApplyKeepsSpaced(desk, Resolve(id));
      desk := desk.(alerts := WithStatus(desk.alerts, id, Resolved));
    }

    /** What a new product, made by the product service, means to these tables. */
    method AddProduct(productId: string)
      requires Valid()
      modifies this
      ensures Valid() && lost == old(lost) + LostBy(old(Db()), ProductAdded(productId))
      ensures Db() == Step(old(Db()), ProductAdded(productId))
    {
      ghost var start := Db();
      products := products + {productId};
      Account(start, ProductAdded(productId));
    }

    /** The rows that go with deleted routes. */
    method DropScores(gone: set<Id>)
      modifies this`desk
      ensures desk == Alerts.Apply(old(desk), RoutesGone(gone))
      ensures old(Spaced(desk.alerts)) ==> Spaced(desk.alerts)
    {
      if Spaced(desk.alerts) {
        SpacedWithout(desk.alerts, gone);
      }
      desk := desk.(scores := ScoresWithout(desk.scores, gone), alerts := AlertsWithout(desk.alerts, gone));
    }

    method DeleteRows(productId: string)
      modifies this`products, this`routes, this`desk
      ensures Db() == Step(old(Db()), ProductDeleted(productId))
      ensures desk == Alerts.Apply(old(desk), RoutesGone(RouteIds(RoutesOf(old(routes), productId))))
      ensures old(Spaced(desk.alerts)) ==> Spaced(desk.alerts)
    {
      DropScores(RouteIds(RoutesOf(routes, productId)));
      products := products - {productId};
      routes := RoutesWithout(routes, productId);
    }

    /** What the schema does to these tables when a product is deleted: its route rows go, the edges stay. */
    method DropProduct(productId: string)
      requires Valid()
      modifies this
      ensures Valid() && lost == old(lost) + LostBy(old(Db()), ProductDeleted(productId))
      ensures Db() == Step(old(Db()), ProductDeleted(productId))
      ensures desk == Alerts.Apply(old(desk), RoutesGone(RouteIds(RoutesOf(old(routes), productId))))
    {
      ghost var start := Db();
      DeleteRows(productId);
      Account(start, ProductDeleted(productId));
    }
  }
}
