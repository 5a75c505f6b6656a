/**
 The routing service's tables: shipment routes register their stops and legs in a shared graph, and
 each leg's `total_shipments` counts the planned paths that use it.
 */
module RouteRegistry {
  import opened Prelude
  import opened RouteGraphs
  import opened Scoring
  import Propagation

  // ---- Location keys ----

  /** ASCII white space: the space, and tab to carriage return. */
  predicate IsBlank(c: char) {
    c == ' ' || 9 <= c as int <= 13
  }

  function TrimStart(s: string): string {
    if s != [] && IsBlank(s[0]) then TrimStart(s[1..]) else s
  }

  function TrimEnd(s: string): string {
    if s != [] && IsBlank(s[|s| - 1]) then TrimEnd(s[..|s| - 1]) else s
  }

  /** Lower-case a character, then replace a separator by an underscore. */
  function KeyChar(c: char): char {
    if 'A' <= c <= 'Z' then (c as int + 32) as char
    else if c == ' ' || c == ',' || c == '.' || c == '-' then '_'
    else c
  }

  function KeyChars(s: string): string {
    seq(|s|, i requires 0 <= i < |s| => KeyChar(s[i]))
  }

  function NormaliseLocationKey(location: string): string {
    KeyChars(TrimEnd(TrimStart(location)))
  }

  lemma {:induction false} TrimEndStops(s: string)
    ensures TrimEnd(s) <= s
    ensures TrimEnd(s) != [] ==> !IsBlank(TrimEnd(s)[|TrimEnd(s)| - 1])
  {
    if s != [] && IsBlank(s[|s| - 1]) {
      TrimEndStops(s[..|s| - 1]);
    }
  }

  lemma {:induction false} TrimStartStops(s: string)
    ensures TrimStart(s) != [] ==> !IsBlank(TrimStart(s)[0])
  {
    if s != [] && IsBlank(s[0]) {
      TrimStartStops(s[1..]);
    }
  }

  /** A key is its own key: looking a hub up by its stored key finds the same hub. */
  lemma KeyIsStable(location: string)
    ensures NormaliseLocationKey(NormaliseLocationKey(location)) == NormaliseLocationKey(location)
  {
    var t := TrimStart(location);
    TrimStartStops(location);
    TrimEndStops(t);
    var k := NormaliseLocationKey(location);
    assert TrimStart(k) == k && TrimEnd(k) == k;
    assert KeyChars(k) == k;
  }

  /** Characters a key does not tell apart: a letter's two cases, and the separators. */
  predicate SameInKeys(c: char, d: char) {
    || c == d
    || ('A' <= c <= 'Z' && d as int == c as int + 32)
    || ('A' <= d <= 'Z' && c as int == d as int + 32)
    || (IsSeparator(c) && IsSeparator(d))
  }

  predicate IsSeparator(c: char) {
    c == ' ' || c == ',' || c == '.' || c == '-' || c == '_'
  }

  /** Space, tab, line feed, vertical tab, form feed, carriage return. */
  predicate IsWhiteSpace(c: char) {
    c as int in {32, 9, 10, 11, 12, 13}
  }

  predicate AllWhite(s: string) {
    forall i :: 0 <= i < |s| ==> IsWhiteSpace(s[i])
  }

  /** `inner` is the location without the white space around it. */
  ghost predicate IsTrimmed(inner: string, location: string) {
    && (inner != [] ==> !IsWhiteSpace(inner[0]) && !IsWhiteSpace(inner[|inner| - 1]))
    && exists before: string, after: string :: AllWhite(before) && AllWhite(after) && location == before + inner + after
  }

  lemma BlankIsWhite(c: char)
    ensures IsBlank(c) <==> IsWhiteSpace(c)
  {
  }

  lemma {:induction false} TrimStartDrops(s: string) returns (before: string)
    ensures s == before + TrimStart(s) && AllWhite(before)
  {
    if s != [] && IsBlank(s[0]) {
      var more := TrimStartDrops(s[1..]);
      before := [s[0]] + more;
    } else {
      before := [];
    }
  }

  lemma {:induction false} TrimEndDrops(s: string) returns (after: string)
    ensures s == TrimEnd(s) + after && AllWhite(after)
  {
    if s != [] && IsBlank(s[|s| - 1]) {
      var more := TrimEndDrops(s[..|s| - 1]);
      after := more + [s[|s| - 1]];
    } else {
      after := [];
    }
  }

  /** Trimming takes off exactly the white space around a location. */
  lemma TrimIsTrimmed(location: string)
    ensures IsTrimmed(TrimEnd(TrimStart(location)), location)
  {
    var rest := TrimStart(location);
    var inner := TrimEnd(rest);
    var before := TrimStartDrops(location);
    var after := TrimEndDrops(rest);
    TrimStartStops(location);
    TrimEndStops(rest);
    TrimmedFromParts(location, before, inner, after);
  }

  lemma TrimmedFromParts(location: string, before: string, inner: string, after: string)
    requires location == before + (inner + after) && AllWhite(before) && AllWhite(after)
    requires inner != [] ==> !IsBlank(inner[0]) && !IsBlank(inner[|inner| - 1])
    ensures IsTrimmed(inner, location)
  {
    if inner != [] {
      BlankIsWhite(inner[0]);
      BlankIsWhite(inner[|inner| - 1]);
    }
    assert location == before + inner + after;
  }

  /** Two locations share a key exactly when, white space around them aside, they differ only in case and separators. */
  lemma SameKeyIff(a: string, b: string)
    ensures var x, y := TrimEnd(TrimStart(a)), TrimEnd(TrimStart(b));
            NormaliseLocationKey(a) == NormaliseLocationKey(b)
            <==> |x| == |y| && forall i :: 0 <= i < |x| ==> SameInKeys(x[i], y[i])
  {
    var x, y := TrimEnd(TrimStart(a)), TrimEnd(TrimStart(b));
    if |x| == |y| {
      forall i | 0 <= i < |x|
        ensures KeyChars(x)[i] == KeyChars(y)[i] <==> SameInKeys(x[i], y[i])
      {
      }
    }
  }

  // ---- Tables ----

  datatype Tables = Tables(
    nodes: seq<RouteNode>,
    edges: seq<RouteEdge>,
    routes: seq<ShipmentRoute>,
    products: set<string>,
    nextId: nat)

  datatype CreateRequest = CreateRequest(
    productId: string,
    origin: string,
    destination: string,
    waypoints: seq<string>,
    plannedArrivalAt: Option<int>,
    departedAt: Option<int>)

  datatype Created = Created(tables: Tables, path: seq<Id>, stored: bool)

  function KeyIndex(nodes: seq<RouteNode>, key: string): (r: Option<nat>)
    ensures r.Some? ==> r.value < |nodes| && nodes[r.value].nodeKey == key
    ensures r.None? ==> forall n :: n in nodes ==> n.nodeKey != key
  {
    if nodes == [] then None
    else if nodes[0].nodeKey == key then Some(0)
    else match KeyIndex(nodes[1..], key)
      case None => None
      case Some(i) => Some(i + 1)
  }

  /** `INSERT .. ON CONFLICT (node_key) DO UPDATE .. RETURNING *`; fresh ids come from a counter. */
  function NodeUpserted(t: Tables, location: string, nodeType: string): (Tables, Id) {
    var key := NormaliseLocationKey(location);
    match KeyIndex(t.nodes, key)
    case Some(i) => (t, t.nodes[i].id)
    case None =>
      (t.(nodes := t.nodes + [RouteNode(t.nextId, key, location, nodeType, 0.0)], nextId := t.nextId + 1), t.nextId)
  }

  /** `INSERT .. ON CONFLICT (source, dest) DO UPDATE SET total_shipments = total_shipments + 1`. */
  function EdgeUpserted(edges: seq<RouteEdge>, src: Id, dst: Id): seq<RouteEdge> {
    if edges == [] then [RouteEdge(src, dst, 0.0, 0.0, 1, false)]
    else if edges[0].source == src && edges[0].dest == dst then
      [edges[0].(totalShipments := edges[0].totalShipments + 1)] + edges[1..]
    else [edges[0]] + EdgeUpserted(edges[1..], src, dst)
  }

  /** The waypoint loop: upsert each stop and the leg that reaches it. */
  function Followed(t: Tables, path: seq<Id>, waypoints: seq<string>): (Tables, seq<Id>)
    requires path != []
    decreases |waypoints|
  {
    if waypoints == [] then (t, path)
    else
      var (u, id) := NodeUpserted(t, waypoints[0], "waypoint");
      Followed(u.(edges := EdgeUpserted(u.edges, path[|path| - 1], id)), path + [id], waypoints[1..])
  }

  /** The legs of a path from its origin through the waypoints to its destination. */
  function LegsRegistered(t: Tables, origin: Id, dest: Id, waypoints: seq<string>): (r: (Tables, seq<Id>))
    ensures |r.1| >= 2
  {
    var (u, stops) := Followed(t, [origin], waypoints);
    assert stops != [] by { FollowedExtends(t, [origin], waypoints); }
    (u.(edges := EdgeUpserted(u.edges, stops[|stops| - 1], dest)), stops + [dest])
  }

  /** Everything `create_shipment_route` writes before the route row, and the planned path. */
  function PathRegistered(t: Tables, req: CreateRequest): (r: (Tables, seq<Id>))
    ensures |r.1| >= 2
  {
    var (t1, origin) := NodeUpserted(t, req.origin, "origin");
    var (t2, dest) := NodeUpserted(t1, req.destination, "destination");
    LegsRegistered(t2, origin, dest, req.waypoints)
  }

  /** The row of a new route: in transit, at its origin. */
  function NewRoute(id: Id, req: CreateRequest, path: seq<Id>, now: int): ShipmentRoute
    requires path != []
  {
    ShipmentRoute(
      id, req.productId, path, [], Some(path[0]), "in_transit", req.plannedArrivalAt,
      Some(match req.departedAt case Some(d) => d case None => now), now)
  }

  /**
   `create_shipment_route`. The route row is inserted last and refers to its product, so for an unknown
   product the insert fails after nodes and edges have already been written.
   */
  function RouteCreated(t: Tables, req: CreateRequest, now: int): Created {
    var (u, path) := PathRegistered(t, req);
    if req.productId in u.products then
      Created(u.(routes := u.routes + [NewRoute(u.nextId, req, path, now)], nextId := u.nextId + 1), path, true)
    else
      Created(u, path, false)
  }

  function RoutesMoved(routes: seq<ShipmentRoute>, routeId: Id, node: Id): seq<ShipmentRoute> {
    seq(|routes|, i requires 0 <= i < |routes| =>
      if routes[i].id == routeId
      then routes[i].(currentNodeId := Some(node), actualPath := routes[i].actualPath + [node])
      else routes[i])
  }

  function SignalRaised(nodes: seq<RouteNode>, node: Id, signal: real): seq<RouteNode> {
    seq(|nodes|, i requires 0 <= i < |nodes| =>
      if nodes[i].id == node
      then nodes[i].(anomalySignal := Max(nodes[i].anomalySignal, signal))
      else nodes[i])
  }

  /** The writes of `update_position`; an unknown route id still upserts the node. */
  function PositionUpdated(t: Tables, routeId: Id, location: string, iotSignal: Option<real>): Tables {
    var (u, node) := NodeUpserted(t, location, "waypoint");
    var moved := u.(routes := RoutesMoved(u.routes, routeId, node));
    match iotSignal
    case None => moved
    case Some(s) => moved.(nodes := SignalRaised(moved.nodes, node, Clamp01(s)))
  }

  // ---- What must always hold ----

  ghost predicate HasNode(nodes: seq<RouteNode>, id: Id) {
    exists n :: n in nodes && n.id == id
  }

  ghost predicate NodesWellFormed(nodes: seq<RouteNode>, nextId: nat) {
    && UniqueIds(nodes)
    && (forall i, j :: 0 <= i < j < |nodes| ==> nodes[i].nodeKey != nodes[j].nodeKey)
    && (forall n :: n in nodes ==> n.id < nextId && 0.0 <= n.anomalySignal <= 1.0)
  }

  /** The unique constraint on (source, dest). */
  ghost predicate UniquePairs(edges: seq<RouteEdge>) {
    forall i, j :: 0 <= i < j < |edges| ==> !SamePair(edges[i], edges[j])
  }

  predicate SamePair(e: RouteEdge, f: RouteEdge) {
    e.source == f.source && e.dest == f.dest
  }

  ghost predicate EdgesWellFormed(edges: seq<RouteEdge>, nodes: seq<RouteNode>) {
    && UniquePairs(edges)
    && (forall e :: e in edges ==> HasNode(nodes, e.source) && HasNode(nodes, e.dest) && e.totalShipments > 0)
  }

  ghost predicate PathExists(path: seq<Id>, nodes: seq<RouteNode>) {
    forall id :: id in path ==> HasNode(nodes, id)
  }

  function PairCount(path: seq<Id>, a: Id, b: Id): nat {
    if |path| < 2 then 0
    else
      var n := |path|;
      PairCount(path[..n - 1], a, b) + if path[n - 2] == a && path[n - 1] == b then 1 else 0
  }

  function PathPairs(paths: seq<seq<Id>>, a: Id, b: Id): nat {
    if paths == [] then 0
    else PathPairs(paths[..|paths| - 1], a, b) + PairCount(paths[|paths| - 1], a, b)
  }

  function PlannedPaths(routes: seq<ShipmentRoute>): (r: seq<seq<Id>>)
    ensures |r| == |routes| && forall i :: 0 <= i < |r| ==> r[i] == routes[i].plannedPath
  {
    seq(|routes|, i requires 0 <= i < |routes| => routes[i].plannedPath)
  }

  function EdgeTotal(edges: seq<RouteEdge>, a: Id, b: Id): nat {
    match FindEdge(edges, a, b)
    case None => 0
    case Some(e) => e.totalShipments
  }

  /** Every edge count is the number of uses in stored planned paths plus the uses of creations that failed. */
  ghost predicate Counted(edges: seq<RouteEdge>, planned: seq<seq<Id>>, lost: seq<seq<Id>>) {
    forall a, b :: EdgeTotal(edges, a, b) == PathPairs(planned, a, b) + PathPairs(lost, a, b)
  }

  ghost predicate Invariant(t: Tables, lost: seq<seq<Id>>) {
    && NodesWellFormed(t.nodes, t.nextId)
    && EdgesWellFormed(t.edges, t.nodes)
    && (forall r :: r in t.routes ==> |r.plannedPath| >= 2 && PathExists(r.plannedPath, t.nodes))
    && (forall p :: p in lost ==> |p| >= 2)
    && Counted(t.edges, PlannedPaths(t.routes), lost)
  }

  // ---- Steps keep it ----

  lemma {:induction false} EdgeUpsertedCounts(edges: seq<RouteEdge>, x: Id, y: Id, a: Id, b: Id)
    ensures EdgeTotal(EdgeUpserted(edges, x, y), a, b)
         == EdgeTotal(edges, a, b) + if x == a && y == b then 1 else 0
  {
    if edges != [] && !(edges[0].source == x && edges[0].dest == y) {
      EdgeUpsertedCounts(edges[1..], x, y, a, b);
      assert EdgeUpserted(edges, x, y)[1..] == EdgeUpserted(edges[1..], x, y);
    }
  }

  /** An upsert touches one ordered pair and leaves every other row alone. */
  lemma {:induction false} EdgeUpsertedRows(edges: seq<RouteEdge>, x: Id, y: Id)
    ensures forall e :: e in EdgeUpserted(edges, x, y) ==>
              e in edges || (e.source == x && e.dest == y && e.totalShipments > 0)
  {
    if edges == [] {
    } else {
      EdgeUpsertedRows(edges[1..], x, y);
    }
  }

  lemma UniqueCons(e: RouteEdge, rest: seq<RouteEdge>)
    requires UniquePairs(rest) && forall f :: f in rest ==> !SamePair(e, f)
    ensures UniquePairs([e] + rest)
  {
  }

  lemma {:induction false} EdgeUpsertedUnique(edges: seq<RouteEdge>, x: Id, y: Id)
    requires UniquePairs(edges)
    ensures UniquePairs(EdgeUpserted(edges, x, y))
  {
    if edges == [] {
    } else {
      var head, tail := edges[0], edges[1..];
      forall f | f in tail
        ensures !SamePair(head, f)
      {
        var i :| 0 <= i < |tail| && tail[i] == f;
        assert edges[i + 1] == f;
      }
      if head.source == x && head.dest == y {
        UniqueCons(head.(totalShipments := head.totalShipments + 1), tail);
      } else {
        EdgeUpsertedUnique(tail, x, y);
        EdgeUpsertedRows(tail, x, y);
        UniqueCons(head, EdgeUpserted(tail, x, y));
      }
    }
  }

  lemma EdgeUpsertedWellFormed(edges: seq<RouteEdge>, nodes: seq<RouteNode>, x: Id, y: Id)
    requires EdgesWellFormed(edges, nodes) && HasNode(nodes, x) && HasNode(nodes, y)
    ensures EdgesWellFormed(EdgeUpserted(edges, x, y), nodes)
  {
    EdgeUpsertedUnique(edges, x, y);
    EdgeUpsertedRows(edges, x, y);
  }

  ghost predicate Extends(nodes: seq<RouteNode>, more: seq<RouteNode>) {
    forall id :: HasNode(nodes, id) ==> HasNode(more, id)
  }

  lemma NodeUpsertedKeeps(t: Tables, location: string, nodeType: string)
    requires NodesWellFormed(t.nodes, t.nextId)
    ensures var (u, id) := NodeUpserted(t, location, nodeType);
            && NodesWellFormed(u.nodes, u.nextId)
            && HasNode(u.nodes, id)
            && Extends(t.nodes, u.nodes)
            && u.edges == t.edges && u.routes == t.routes && u.products == t.products
  {
    var (u, id) := NodeUpserted(t, location, nodeType);
    match KeyIndex(t.nodes, NormaliseLocationKey(location)) {
      case Some(i) =>
        assert t.nodes[i] in t.nodes;
      case None =>
        assert u.nodes[|t.nodes|] in u.nodes;
        assert forall n :: n in u.nodes ==> n in t.nodes || n == u.nodes[|t.nodes|];
        forall k | HasNode(t.nodes, k)
          ensures HasNode(u.nodes, k)
        {
          var n :| n in t.nodes && n.id == k;
          assert n in u.nodes;
        }
    }
  }

  lemma {:induction false} FollowedExtends(t: Tables, path: seq<Id>, waypoints: seq<string>)
    requires path != []
    ensures path <= Followed(t, path, waypoints).1
    ensures Followed(t, path, waypoints).0.routes == t.routes
    ensures Followed(t, path, waypoints).0.products == t.products
    decreases |waypoints|
  {
    if waypoints == [] {
    } else {
      var (u, id) := NodeUpserted(t, waypoints[0], "waypoint");
      FollowedExtends(u.(edges := EdgeUpserted(u.edges, path[|path| - 1], id)), path + [id], waypoints[1..]);
    }
  }

  lemma AppendedPair(path: seq<Id>, id: Id, a: Id, b: Id)
    requires path != []
    ensures PairCount(path + [id], a, b)
         == PairCount(path, a, b) + if path[|path| - 1] == a && id == b then 1 else 0
  {
    assert (path + [id])[..|path|] == path;
  }

  /** The table part of a half-built path: everything on it exists and every new leg has been counted once. */
  ghost predicate Underway(t: Tables, path: seq<Id>) {
    && NodesWellFormed(t.nodes, t.nextId)
    && EdgesWellFormed(t.edges, t.nodes)
    && PathExists(path, t.nodes)
  }

  lemma LegAdded(t: Tables, path: seq<Id>, id: Id)
    requires path != [] && Underway(t, path) && HasNode(t.nodes, id)
    ensures var u := t.(edges := EdgeUpserted(t.edges, path[|path| - 1], id));
            && Underway(u, path + [id])
            && (forall a, b :: EdgeTotal(u.edges, a, b) + PairCount(path, a, b)
                            == EdgeTotal(t.edges, a, b) + PairCount(path + [id], a, b))
  {
    assert path[|path| - 1] in path;
    EdgeUpsertedWellFormed(t.edges, t.nodes, path[|path| - 1], id);
    forall a, b
      ensures EdgeTotal(EdgeUpserted(t.edges, path[|path| - 1], id), a, b) + PairCount(path, a, b)
           == EdgeTotal(t.edges, a, b) + PairCount(path + [id], a, b)
    {
      EdgeUpsertedCounts(t.edges, path[|path| - 1], id, a, b);
      AppendedPair(path, id, a, b);
    }
  }

  lemma UpsertUnderway(t: Tables, path: seq<Id>, location: string, nodeType: string)
    requires Underway(t, path)
    ensures var (u, id) := NodeUpserted(t, location, nodeType);
            Underway(u, path) && Underway(u, path + [id]) && HasNode(u.nodes, id) && Extends(t.nodes, u.nodes)
  {
    NodeUpsertedKeeps(t, location, nodeType);
  }

  lemma {:induction false} FollowedCounts(t: Tables, path: seq<Id>, waypoints: seq<string>)
    requires path != [] && Underway(t, path)
    ensures var (u, p) := Followed(t, path, waypoints);
            && Underway(u, p) && path <= p && Extends(t.nodes, u.nodes)
            && (forall a, b :: EdgeTotal(u.edges, a, b) + PairCount(path, a, b)
                            == EdgeTotal(t.edges, a, b) + PairCount(p, a, b))
    decreases |waypoints|
  {
    if waypoints == [] {
    } else {
      var (u, id) := NodeUpserted(t, waypoints[0], "waypoint");
      UpsertUnderway(t, path, waypoints[0], "waypoint");
      NodeUpsertedKeeps(t, waypoints[0], "waypoint");
      LegAdded(u, path, id);
      FollowedCounts(u.(edges := EdgeUpserted(u.edges, path[|path| - 1], id)), path + [id], waypoints[1..]);
    }
  }

  /** `u` extends `t` by exactly the legs of `path`. */
  ghost predicate AddsPath(t: Tables, u: Tables, path: seq<Id>) {
    && |path| >= 2 && Underway(u, path) && Extends(t.nodes, u.nodes)
    && u.products == t.products && u.routes == t.routes
    && forall a, b :: EdgeTotal(u.edges, a, b) == EdgeTotal(t.edges, a, b) + PairCount(path, a, b)
  }

  lemma LegsRegisteredCounts(t: Tables, origin: Id, dest: Id, waypoints: seq<string>)
    requires Underway(t, [origin]) && HasNode(t.nodes, dest)
    ensures var (u, path) := LegsRegistered(t, origin, dest, waypoints);
            AddsPath(t, u, path)
  {
    FollowedExtends(t, [origin], waypoints);
    FollowedCounts(t, [origin], waypoints);
    var (u, stops) := Followed(t, [origin], waypoints);
    LegAdded(u, stops, dest);
    forall a, b
      ensures PairCount([origin], a, b) == 0
    {
    }
  }

  lemma PathRegisteredCounts(t: Tables, req: CreateRequest)
    requires NodesWellFormed(t.nodes, t.nextId) && EdgesWellFormed(t.edges, t.nodes)
    ensures AddsPath(t, PathRegistered(t, req).0, PathRegistered(t, req).1)
  {
    var (t1, origin) := NodeUpserted(t, req.origin, "origin");
    NodeUpsertedKeeps(t, req.origin, "origin");
    var (t2, dest) := NodeUpserted(t1, req.destination, "destination");
    NodeUpsertedKeeps(t1, req.destination, "destination");
    LegsRegisteredCounts(t2, origin, dest, req.waypoints);
    AddsPathAfter(t, t2, PathRegistered(t, req).0, PathRegistered(t, req).1);
  }

  lemma AddsPathAfter(t: Tables, mid: Tables, u: Tables, path: seq<Id>)
    requires AddsPath(mid, u, path) && Extends(t.nodes, mid.nodes)
    requires mid.edges == t.edges && mid.routes == t.routes && mid.products == t.products
    ensures AddsPath(t, u, path)
  {
  }

  /** One creation adds exactly the pairs of its own path, stored or not. */
  lemma RouteCreatedCounts(t: Tables, req: CreateRequest, now: int)
    requires NodesWellFormed(t.nodes, t.nextId) && EdgesWellFormed(t.edges, t.nodes)
    ensures var c := RouteCreated(t, req, now);
            && |c.path| >= 2 && Underway(c.tables, c.path) && Extends(t.nodes, c.tables.nodes)
            && c.tables.products == t.products
            && c.stored == (req.productId in t.products)
            && (forall a, b :: EdgeTotal(c.tables.edges, a, b) == EdgeTotal(t.edges, a, b) + PairCount(c.path, a, b))
            && (!c.stored ==> c.tables.routes == t.routes)
            && (c.stored ==> |c.tables.routes| == |t.routes| + 1 && c.tables.routes[..|t.routes|] == t.routes
                             && c.tables.routes[|t.routes|].plannedPath == c.path)
  {
    PathRegisteredCounts(t, req);
  }

  lemma PathPairsSplit(paths: seq<seq<Id>>, path: seq<Id>, a: Id, b: Id)
    ensures PathPairs(paths + [path], a, b) == PathPairs(paths, a, b) + PairCount(path, a, b)
  {
    assert (paths + [path])[..|paths|] == paths;
  }

  // ---- Runs ----

  datatype Op =
    | Create(req: CreateRequest, now: int)
    | Update(routeId: Id, location: string, iotSignal: Option<real>)
    | Propagate
    | ProductAdded(productId: string)
    | ProductDeleted(productId: string)   // its route rows go with it; edges keep their counts

  function Step(t: Tables, op: Op): Tables {
    match op
    case Create(req, now) => RouteCreated(t, req, now).tables
    case Update(routeId, location, iotSignal) => PositionUpdated(t, routeId, location, iotSignal)
    case Propagate => t.(nodes := Propagation.Propagate(RouteGraph(t.nodes, t.edges)).nodes)
    case ProductAdded(id) => t.(products := t.products + {id})
    case ProductDeleted(id) => t.(products := t.products - {id}, routes := RoutesWithout(t.routes, id))
  }

  function RoutesWithout(routes: seq<ShipmentRoute>, productId: string): (r: seq<ShipmentRoute>)
    ensures forall x :: x in r <==> x in routes && x.productId != productId
  {
    if routes == [] then []
    else
      var before, last := RoutesWithout(routes[..|routes| - 1], productId), routes[|routes| - 1];
      if last.productId == productId then before else before + [last]
  }

  function RoutesOf(routes: seq<ShipmentRoute>, productId: string): (r: seq<ShipmentRoute>)
    ensures forall x :: x in r <==> x in routes && x.productId == productId
  {
    if routes == [] then []
    else
      var before, last := RoutesOf(routes[..|routes| - 1], productId), routes[|routes| - 1];
      if last.productId == productId then before + [last] else before
  }

  /** A deletion leaves the other products' routes, in order. */
  lemma {:induction false} RoutesWithoutAre(routes: seq<ShipmentRoute>, productId: string) returns (at: seq<nat>)
    ensures Selected(at, routes, RoutesWithout(routes, productId),
                     (r: ShipmentRoute) => r.productId != productId, (r: ShipmentRoute) => r)
  {
    if routes == [] {
      at := [];
    } else {
      var init, last := routes[..|routes| - 1], routes[|routes| - 1];
      var other, same := (r: ShipmentRoute) => r.productId != productId, (r: ShipmentRoute) => r;
      at := RoutesWithoutAre(init, productId);
      assert init + [last] == routes;
      if other(last) {
        SelectedMore(at, init, RoutesWithout(init, productId), other, same, last);
        at := at + [|init|];
      } else {
        SelectedNoMore(at, init, RoutesWithout(init, productId), other, same, last);
      }
    }
  }

  /** A product exists after an operation if it did before, or was added by it, and was not deleted by it. */
  lemma ProductsAfter(t: Tables, op: Op, productId: string)
    ensures productId in Step(t, op).products
            <==> (productId in t.products || op == ProductAdded(productId)) && op != ProductDeleted(productId)
  {
    if op.Create? {
      StoredIffProductKnown(t, op.req, op.now);
    }
  }

  /** The counted paths no stored route has any more: a refused creation's, or those of a deleted product. */
  function LostBy(t: Tables, op: Op): seq<seq<Id>> {
    match op
    case Create(req, _) => if req.productId in t.products then [] else [PathRegistered(t, req).1]
    case ProductDeleted(id) => PlannedPaths(RoutesOf(t.routes, id))
    case _ => []
  }

  function Run(products: set<string>, ops: seq<Op>): (Tables, seq<seq<Id>>) {
    if ops == [] then (Tables([], [], [], products, 0), [])
    else
      var (t, lost) := Run(products, ops[..|ops| - 1]);
      (Step(t, ops[|ops| - 1]), lost + LostBy(t, ops[|ops| - 1]))
  }

  lemma OnePathMore(planned: seq<seq<Id>>, lost: seq<seq<Id>>, path: seq<Id>, stored: bool, a: Id, b: Id)
    ensures var planned' := if stored then planned + [path] else planned;
            var lost' := if stored then lost + [] else lost + [path];
            PathPairs(planned', a, b) + PathPairs(lost', a, b)
            == PathPairs(planned, a, b) + PathPairs(lost, a, b) + PairCount(path, a, b)
  {
    PathPairsSplit(planned, path, a, b);
    PathPairsSplit(lost, path, a, b);
    assert lost + [] == lost;
  }

  lemma CountedMore(edges: seq<RouteEdge>, more: seq<RouteEdge>, planned: seq<seq<Id>>, lost: seq<seq<Id>>,
                    path: seq<Id>, stored: bool)
    requires Counted(edges, planned, lost)
    requires forall a, b :: EdgeTotal(more, a, b) == EdgeTotal(edges, a, b) + PairCount(path, a, b)
    ensures Counted(more, if stored then planned + [path] else planned, if stored then lost + [] else lost + [path])
  {
    forall a, b {
      OnePathMore(planned, lost, path, stored, a, b);
    }
  }

  /** The planned paths once a route row has been inserted, or refused. */
  lemma PlannedPathsAfter(routes: seq<ShipmentRoute>, more: seq<ShipmentRoute>, path: seq<Id>, stored: bool)
    requires !stored ==> more == routes
    requires stored ==> |more| == |routes| + 1 && more[..|routes|] == routes && more[|routes|].plannedPath == path
    ensures PlannedPaths(more) == if stored then PlannedPaths(routes) + [path] else PlannedPaths(routes)
  {
    if stored {
      forall i | 0 <= i < |routes|
        ensures more[i] == routes[i]
      {
        assert more[..|routes|][i] == routes[i];
      }
    }
  }

  lemma CreatedPath(t: Tables, req: CreateRequest, now: int)
    ensures RouteCreated(t, req, now).path == PathRegistered(t, req).1
  {
  }

  lemma CreateCounts(t: Tables, lost: seq<seq<Id>>, req: CreateRequest, now: int)
    requires Invariant(t, lost)
    ensures Counted(Step(t, Create(req, now)).edges, PlannedPaths(Step(t, Create(req, now)).routes),
                    lost + LostBy(t, Create(req, now)))
  {
    RouteCreatedCounts(t, req, now);
    CreatedPath(t, req, now);
    var c := RouteCreated(t, req, now);
    CountedMore(t.edges, c.tables.edges, PlannedPaths(t.routes), lost, c.path, c.stored);
    PlannedPathsAfter(t.routes, c.tables.routes, c.path, c.stored);
  }

  lemma CreateKeeps(t: Tables, lost: seq<seq<Id>>, req: CreateRequest, now: int)
    requires Invariant(t, lost)
    ensures Invariant(Step(t, Create(req, now)), lost + LostBy(t, Create(req, now)))
  {
    CreateCounts(t, lost, req, now);
    RouteCreatedCounts(t, req, now);
    var c := RouteCreated(t, req, now);
    forall r | r in c.tables.routes
      ensures |r.plannedPath| >= 2 && PathExists(r.plannedPath, c.tables.nodes)
    {
      var i :| 0 <= i < |c.tables.routes| && c.tables.routes[i] == r;
      if i < |t.routes| {
        assert c.tables.routes[..|t.routes|][i] == t.routes[i];
      }
    }
  }

  /** Rewriting signals in place keeps ids and keys. */
  lemma SignalsRewritten(t: Tables, lost: seq<seq<Id>>, nodes: seq<RouteNode>)
    requires Invariant(t, lost) && |nodes| == |t.nodes|
    requires forall i :: 0 <= i < |nodes| ==>
               nodes[i] == t.nodes[i].(anomalySignal := nodes[i].anomalySignal) && 0.0 <= nodes[i].anomalySignal <= 1.0
    ensures Invariant(t.(nodes := nodes), lost)
  {
    forall id | HasNode(t.nodes, id)
      ensures HasNode(nodes, id)
    {
      var i :| 0 <= i < |t.nodes| && t.nodes[i].id == id;
      assert nodes[i] in nodes;
    }
  }

  /** Moving routes changes no planned path. */
  lemma RoutesMovedKeeps(t: Tables, lost: seq<seq<Id>>, routeId: Id, node: Id)
    requires Invariant(t, lost)
    ensures Invariant(t.(routes := RoutesMoved(t.routes, routeId, node)), lost)
  {
    var routes := RoutesMoved(t.routes, routeId, node);
    assert PlannedPaths(routes) == PlannedPaths(t.routes);
    forall r | r in routes
      ensures |r.plannedPath| >= 2 && PathExists(r.plannedPath, t.nodes)
    {
      var i :| 0 <= i < |routes| && routes[i] == r;
      assert t.routes[i] in t.routes;
    }
  }

  /** A new node leaves everything else in place. */
  lemma NodeUpsertedKeepsAll(t: Tables, lost: seq<seq<Id>>, location: string)
    requires Invariant(t, lost)
    ensures Invariant(NodeUpserted(t, location, "waypoint").0, lost)
  {
    NodeUpsertedKeeps(t, location, "waypoint");
  }

  lemma UpdateKeeps(t: Tables, lost: seq<seq<Id>>, routeId: Id, location: string, iotSignal: Option<real>)
    requires Invariant(t, lost)
    ensures Invariant(PositionUpdated(t, routeId, location, iotSignal), lost)
  {
    NodeUpsertedKeepsAll(t, lost, location);
    var (u, node) := NodeUpserted(t, location, "waypoint");
    RoutesMovedKeeps(u, lost, routeId, node);
    var moved := u.(routes := RoutesMoved(u.routes, routeId, node));
    if iotSignal.Some? {
      SignalsRewritten(moved, lost, SignalRaised(moved.nodes, node, Clamp01(iotSignal.value)));
    }
  }

  lemma PropagateKeeps(t: Tables, lost: seq<seq<Id>>)
    requires Invariant(t, lost)
    ensures Invariant(Step(t, Propagate), lost)
  {
    var g := RouteGraph(t.nodes, t.edges);
    forall i | 0 <= i < |t.nodes|
      ensures 0.0 <= Propagation.NewSignal(g, t.nodes[i]) <= 1.0
    {
      Propagation.NewSignalBounds(g, i, 1.0);
    }
    SignalsRewritten(t, lost, Propagation.Propagate(g).nodes);
  }

  lemma {:induction false} PathPairsJoin(a: seq<seq<Id>>, b: seq<seq<Id>>, x: Id, y: Id)
    ensures PathPairs(a + b, x, y) == PathPairs(a, x, y) + PathPairs(b, x, y)
  {
    if b == [] {
      assert a + b == a;
    } else {
      assert (a + b)[..|a + b| - 1] == a + b[..|b| - 1];
      PathPairsJoin(a, b[..|b| - 1], x, y);
    }
  }

  lemma PlannedPathsAppend(routes: seq<ShipmentRoute>, r: ShipmentRoute)
    ensures PlannedPaths(routes + [r]) == PlannedPaths(routes) + [r.plannedPath]
  {
  }

  /** A product's deletion parts the planned paths in two. */
  lemma {:induction false} DeletionSplitsPairs(routes: seq<ShipmentRoute>, productId: string, a: Id, b: Id)
    ensures PathPairs(PlannedPaths(routes), a, b)
         == PathPairs(PlannedPaths(RoutesWithout(routes, productId)), a, b)
            + PathPairs(PlannedPaths(RoutesOf(routes, productId)), a, b)
  {
    if routes == [] {
    } else {
      var init, last := routes[..|routes| - 1], routes[|routes| - 1];
      DeletionSplitsPairs(init, productId, a, b);
      assert routes == init + [last];
      PlannedPathsAppend(init, last);
      PathPairsSplit(PlannedPaths(init), last.plannedPath, a, b);
      var part := if last.productId == productId then RoutesOf(init, productId) else RoutesWithout(init, productId);
      PlannedPathsAppend(part, last);
      PathPairsSplit(PlannedPaths(part), last.plannedPath, a, b);
    }
  }

  lemma ProductDeletedCounts(t: Tables, lost: seq<seq<Id>>, productId: string)
    requires Counted(t.edges, PlannedPaths(t.routes), lost)
    ensures Counted(t.edges, PlannedPaths(RoutesWithout(t.routes, productId)), lost + PlannedPaths(RoutesOf(t.routes, productId)))
  {
    var kept, gone := PlannedPaths(RoutesWithout(t.routes, productId)), PlannedPaths(RoutesOf(t.routes, productId));
    forall a, b
      ensures EdgeTotal(t.edges, a, b) == PathPairs(kept, a, b) + PathPairs(lost + gone, a, b)
    {
      assert EdgeTotal(t.edges, a, b) == PathPairs(PlannedPaths(t.routes), a, b) + PathPairs(lost, a, b);
      DeletionSplitsPairs(t.routes, productId, a, b);
      PathPairsJoin(lost, gone, a, b);
    }
  }

  lemma ProductDeletedKeeps(t: Tables, lost: seq<seq<Id>>, productId: string)
    requires Invariant(t, lost)
    ensures Invariant(Step(t, ProductDeleted(productId)), lost + LostBy(t, ProductDeleted(productId)))
  {
    ProductDeletedCounts(t, lost, productId);
    var gone := RoutesOf(t.routes, productId);
    forall p | p in PlannedPaths(gone)
      ensures |p| >= 2
    {
      var i :| 0 <= i < |gone| && PlannedPaths(gone)[i] == p;
      assert gone[i] in gone;
    }
  }

  lemma StepKeeps(t: Tables, lost: seq<seq<Id>>, op: Op)
    requires Invariant(t, lost)
    ensures Invariant(Step(t, op), lost + LostBy(t, op))
  {
    assert lost + [] == lost;
    match op {
      case Create(req, now) => CreateKeeps(t, lost, req, now);
      case Update(routeId, location, iotSignal) => UpdateKeeps(t, lost, routeId, location, iotSignal);
      case Propagate => PropagateKeeps(t, lost);
      case ProductAdded(_) =>
      case ProductDeleted(id) => ProductDeletedKeeps(t, lost, id);
    }
  }

  /** Unique keys, existing endpoints, signals in [0, 1] and exact edge counts, after every run. */
  lemma {:induction false} RunKeepsInvariant(products: set<string>, ops: seq<Op>)
    ensures Invariant(Run(products, ops).0, Run(products, ops).1)
  {
    if ops == [] {
    } else {
      RunKeepsInvariant(products, ops[..|ops| - 1]);
      var (t, lost) := Run(products, ops[..|ops| - 1]);
      StepKeeps(t, lost, ops[|ops| - 1]);
    }
  }

  // ---- Main results ----

  ghost predicate CountsMatchStoredPaths(t: Tables) {
    forall a, b :: EdgeTotal(t.edges, a, b) == PathPairs(PlannedPaths(t.routes), a, b)
  }

  /** The operation is a creation for an existing product, or a deletion of one without stored routes, or neither. */
  ghost predicate LosesNothing(t: Tables, op: Op) {
    && (op.Create? ==> op.req.productId in t.products)
    && (op.ProductDeleted? ==> forall r :: r in t.routes ==> r.productId != op.productId)
  }

  /** Every operation of the run lost nothing at its own moment. */
  ghost predicate NothingEverLost(products: set<string>, ops: seq<Op>) {
    ops == [] ||
    (NothingEverLost(products, ops[..|ops| - 1]) && LosesNothing(Run(products, ops[..|ops| - 1]).0, ops[|ops| - 1]))
  }

  /** A route row is stored exactly when its product exists. */
  lemma StoredIffProductKnown(t: Tables, req: CreateRequest, now: int)
    ensures RouteCreated(t, req, now).stored <==> req.productId in t.products
    ensures RouteCreated(t, req, now).tables.products == t.products
  {
    var (t1, origin) := NodeUpserted(t, req.origin, "origin");
    var (t2, dest) := NodeUpserted(t1, req.destination, "destination");
    FollowedExtends(t2, [origin], req.waypoints);
  }

  lemma LosesNothingIff(t: Tables, op: Op)
    ensures LostBy(t, op) == [] <==> LosesNothing(t, op)
  {
    if op.ProductDeleted? {
      var gone := RoutesOf(t.routes, op.productId);
      if gone != [] {
        assert gone[0] in gone;
      }
    }
  }

  lemma {:induction false} LostIff(products: set<string>, ops: seq<Op>)
    ensures Run(products, ops).1 == [] <==> NothingEverLost(products, ops)
  {
    if ops == [] {
    } else {
      LostIff(products, ops[..|ops| - 1]);
      LosesNothingIff(Run(products, ops[..|ops| - 1]).0, ops[|ops| - 1]);
    }
  }

  lemma PathPairsPositive(paths: seq<seq<Id>>)
    requires paths != [] && forall p :: p in paths ==> |p| >= 2
    ensures exists a, b :: PathPairs(paths, a, b) > 0
  {
    var p := paths[|paths| - 1];
    assert PairCount(p, p[|p| - 2], p[|p| - 1]) > 0;
    assert PathPairs(paths, p[|p| - 2], p[|p| - 1]) > 0;
  }

  /**
   Every edge's `total_shipments` equals the number of times its ordered pair occurs in stored planned paths
   exactly when every creation named a product that existed then and no deleted product still had a route.
   */
  lemma CountsMatchIffNothingLost(products: set<string>, ops: seq<Op>)
    ensures CountsMatchStoredPaths(Run(products, ops).0) <==> NothingEverLost(products, ops)
  {
    RunKeepsInvariant(products, ops);
    LostIff(products, ops);
    var (t, lost) := Run(products, ops);
    if lost == [] {
      forall a, b
        ensures EdgeTotal(t.edges, a, b) == PathPairs(PlannedPaths(t.routes), a, b)
      {
        assert PathPairs(lost, a, b) == 0;
      }
    } else {
      PathPairsPositive(lost);
      var a, b :| PathPairs(lost, a, b) > 0;
      assert EdgeTotal(t.edges, a, b) != PathPairs(PlannedPaths(t.routes), a, b);
    }
  }

  /** Failing input: one creation for a product that does not exist. */
  lemma RefusedCreationMiscounts(req: CreateRequest)
    ensures !CountsMatchStoredPaths(Run({}, [Create(req, 0)]).0)
  {
    var ops := [Create(req, 0)];
    assert ops[..0] == [];
    CountsMatchIffNothingLost({}, ops);
  }

  /** Failing input: a route stored, and its product deleted. */
  lemma ProductDeletionMiscounts(req: CreateRequest)
    ensures !CountsMatchStoredPaths(Run({req.productId}, [Create(req, 0), ProductDeleted(req.productId)]).0)
  {
    var products := {req.productId};
    var ops := [Create(req, 0), ProductDeleted(req.productId)];
    assert ops[..1] == [Create(req, 0)] && ops[..1][..0] == [];
    var start := Run(products, []).0;
    var t := Run(products, ops[..1]).0;
    assert t == RouteCreated(start, req, 0).tables;
    NewRouteNamesProduct(start, req, 0);
    assert !LosesNothing(t, ops[1]);
    CountsMatchIffNothingLost(products, ops);
  }

  lemma NewRouteNamesProduct(t: Tables, req: CreateRequest, now: int)
    requires req.productId in t.products
    ensures exists r :: r in RouteCreated(t, req, now).tables.routes && r.productId == req.productId
  {
    StoredIffProductKnown(t, req, now);
    var routes := RouteCreated(t, req, now).tables.routes;
    assert routes[|routes| - 1] in routes;
  }

  lemma {:induction false} PairCounted(path: seq<Id>, i: nat)
    requires i + 1 < |path|
    ensures PairCount(path, path[i], path[i + 1]) > 0
  {
    if i + 2 < |path| {
      PairCounted(path[..|path| - 1], i);
    }
  }

  lemma {:induction false} PathPairsCovers(paths: seq<seq<Id>>, k: nat, a: Id, b: Id)
    requires k < |paths|
    ensures PathPairs(paths, a, b) >= PairCount(paths[k], a, b)
  {
    if k + 1 < |paths| {
      PathPairsCovers(paths[..|paths| - 1], k, a, b);
    }
  }

  /** The leg joins existing nodes by an existing edge, counted at least as often as the path takes it. */
  ghost predicate IsCountedLeg(t: Tables, path: seq<Id>, a: Id, b: Id) {
    && HasNode(t.nodes, a) && HasNode(t.nodes, b)
    && FindEdge(t.edges, a, b).Some?
    && EdgeTotal(t.edges, a, b) >= PairCount(path, a, b) > 0
  }

  ghost predicate IsCountedWalk(t: Tables, path: seq<Id>) {
    forall i, j :: 0 <= i && j == i + 1 < |path| ==> IsCountedLeg(t, path, path[i], path[j])
  }

  lemma PlannedPathIsWalk(t: Tables, lost: seq<seq<Id>>, k: nat)
    requires Invariant(t, lost) && k < |t.routes|
    ensures IsCountedWalk(t, t.routes[k].plannedPath)
  {
    var path := t.routes[k].plannedPath;
    assert t.routes[k] in t.routes;
    forall i, j | 0 <= i && j == i + 1 < |path|
      ensures IsCountedLeg(t, path, path[i], path[j])
    {
      assert path[i] in path && path[j] in path;
      PairCounted(path, i);
      PathPairsCovers(PlannedPaths(t.routes), k, path[i], path[j]);
    }
  }

  /** After every run each stored planned path is a walk over existing nodes along existing, counted edges. */
  lemma PlannedPathsAreWalks(products: set<string>, ops: seq<Op>)
    ensures var t := Run(products, ops).0;
            forall r :: r in t.routes ==> IsCountedWalk(t, r.plannedPath)
  {
    RunKeepsInvariant(products, ops);
    var (t, lost) := Run(products, ops);
    forall r | r in t.routes
      ensures IsCountedWalk(t, r.plannedPath)
    {
      var k :| 0 <= k < |t.routes| && t.routes[k] == r;
      PlannedPathIsWalk(t, lost, k);
    }
  }

  // ---- Paths and positions name the right places ----

  /** The node with this id is the one whose key is this location's. */
  ghost predicate IsAt(nodes: seq<RouteNode>, id: Id, location: string) {
    exists n :: n in nodes && n.id == id && n.nodeKey == NormaliseLocationKey(location)
  }

  ghost predicate KeepsPlaces(nodes: seq<RouteNode>, more: seq<RouteNode>) {
    nodes <= more
  }

  lemma UpsertFindsPlace(t: Tables, location: string, nodeType: string)
    ensures var (u, id) := NodeUpserted(t, location, nodeType);
            IsAt(u.nodes, id, location) && KeepsPlaces(t.nodes, u.nodes)
  {
    var (u, id) := NodeUpserted(t, location, nodeType);
    match KeyIndex(t.nodes, NormaliseLocationKey(location)) {
      case Some(i) => assert t.nodes[i] in t.nodes;
      case None => assert u.nodes[|t.nodes|] in u.nodes;
    }
  }

  lemma PlaceKept(nodes: seq<RouteNode>, more: seq<RouteNode>, id: Id, location: string)
    requires KeepsPlaces(nodes, more) && IsAt(nodes, id, location)
    ensures IsAt(more, id, location)
  {
    var n :| n in nodes && n.id == id && n.nodeKey == NormaliseLocationKey(location);
    var i :| 0 <= i < |nodes| && nodes[i] == n;
    assert more[i] == n;
  }

  ghost predicate PathVisits(nodes: seq<RouteNode>, path: seq<Id>, stops: seq<string>) {
    |path| == |stops| && forall i :: 0 <= i < |path| ==> IsAt(nodes, path[i], stops[i])
  }

  lemma PathVisitsKept(nodes: seq<RouteNode>, more: seq<RouteNode>, path: seq<Id>, stops: seq<string>)
    requires KeepsPlaces(nodes, more) && PathVisits(nodes, path, stops)
    ensures PathVisits(more, path, stops)
  {
    forall i | 0 <= i < |path|
      ensures IsAt(more, path[i], stops[i])
    {
      PlaceKept(nodes, more, path[i], stops[i]);
    }
  }

  lemma PathVisitsOneMore(t: Tables, u: Tables, path: seq<Id>, done: seq<string>, id: Id, stop: string)
    requires PathVisits(t.nodes, path, done) && KeepsPlaces(t.nodes, u.nodes) && IsAt(u.nodes, id, stop)
    ensures PathVisits(u.nodes, path + [id], done + [stop])
  {
    PathVisitsKept(t.nodes, u.nodes, path, done);
  }

  lemma {:induction false} FollowedVisits(t: Tables, path: seq<Id>, done: seq<string>, waypoints: seq<string>)
    requires path != [] && PathVisits(t.nodes, path, done)
    ensures PathVisits(Followed(t, path, waypoints).0.nodes, Followed(t, path, waypoints).1, done + waypoints)
    ensures KeepsPlaces(t.nodes, Followed(t, path, waypoints).0.nodes)
    decreases |waypoints|
  {
    if waypoints == [] {
      assert done + waypoints == done;
    } else {
      var (u, id) := NodeUpserted(t, waypoints[0], "waypoint");
      UpsertFindsPlace(t, waypoints[0], "waypoint");
      PathVisitsOneMore(t, u, path, done, id, waypoints[0]);
      var v := u.(edges := EdgeUpserted(u.edges, path[|path| - 1], id));
      FollowedVisits(v, path + [id], done + [waypoints[0]], waypoints[1..]);
      assert done + [waypoints[0]] + waypoints[1..] == done + waypoints;
    }
  }

  /** The planned path visits the origin, each waypoint in order and the destination, each at the node of its key. */
  lemma PathFollowsRequest(t: Tables, req: CreateRequest, now: int)
    ensures var c := RouteCreated(t, req, now);
            PathVisits(c.tables.nodes, c.path, [req.origin] + req.waypoints + [req.destination])
  {
    var (t1, origin) := NodeUpserted(t, req.origin, "origin");
    UpsertFindsPlace(t, req.origin, "origin");
    var (t2, dest) := NodeUpserted(t1, req.destination, "destination");
    UpsertFindsPlace(t1, req.destination, "destination");
    PlaceKept(t1.nodes, t2.nodes, origin, req.origin);
    assert PathVisits(t2.nodes, [origin], [req.origin]);
    FollowedVisits(t2, [origin], [req.origin], req.waypoints);
    FollowedExtends(t2, [origin], req.waypoints);
    var (t3, stops) := Followed(t2, [origin], req.waypoints);
    PlaceKept(t2.nodes, t3.nodes, dest, req.destination);
  }

  /** A new route stands at its origin with nothing visited, and is scored until it arrives. */
  lemma NewRouteStartsAtOrigin(t: Tables, req: CreateRequest, now: int)
    requires req.productId in t.products
    ensures var routes := RouteCreated(t, req, now).tables.routes;
            && |routes| == |t.routes| + 1
            && routes[..|t.routes|] == t.routes
            && var r := routes[|t.routes|];
               && r.currentNodeId.Some?
               && IsAt(RouteCreated(t, req, now).tables.nodes, r.currentNodeId.value, req.origin)
               && r.plannedPath == RouteCreated(t, req, now).path
               && r.actualPath == [] && r.status == "in_transit"
               && r.departedAt == (if req.departedAt == None then Some(now) else req.departedAt)
               && r.plannedArrivalAt == req.plannedArrivalAt && r.createdAt == now && r.productId == req.productId
  {
    PathFollowsRequest(t, req, now);
    StoredIffProductKnown(t, req, now);
    var (t1, origin) := NodeUpserted(t, req.origin, "origin");
    var (t2, dest) := NodeUpserted(t1, req.destination, "destination");
    FollowedExtends(t2, [origin], req.waypoints);
  }

  /**
   A position update moves exactly the named route to the node of the reported place, extends its actual path
   by that node, and leaves no signal lower.
   */
  lemma PositionUpdateMoves(t: Tables, routeId: Id, location: string, iotSignal: Option<real>, i: nat)
    requires i < |t.routes|
    ensures var u := PositionUpdated(t, routeId, location, iotSignal);
            && |u.routes| == |t.routes| && u.edges == t.edges
            && (t.routes[i].id != routeId ==> u.routes[i] == t.routes[i])
            && (t.routes[i].id == routeId ==>
                  && u.routes[i].currentNodeId.Some?
                  && IsAt(u.nodes, u.routes[i].currentNodeId.value, location)
                  && u.routes[i] == t.routes[i].(currentNodeId := u.routes[i].currentNodeId,
                                                 actualPath := t.routes[i].actualPath + [u.routes[i].currentNodeId.value]))
  {
    UpsertFindsPlace(t, location, "waypoint");
    var (v, node) := NodeUpserted(t, location, "waypoint");
    var u := PositionUpdated(t, routeId, location, iotSignal);
    var n :| n in v.nodes && n.id == node && n.nodeKey == NormaliseLocationKey(location);
    var k :| 0 <= k < |v.nodes| && v.nodes[k] == n;
    assert u.nodes[k] in u.nodes && u.nodes[k].id == node && u.nodes[k].nodeKey == n.nodeKey;
  }

  /** A sensor reading raises its node's signal to the larger of old and clamped new, and touches no other node. */
  lemma SensorReadingMerged(t: Tables, routeId: Id, location: string, reading: real, j: nat)
    requires NodesWellFormed(t.nodes, t.nextId) && j < |t.nodes|
    ensures var u := PositionUpdated(t, routeId, location, Some(reading));
            && |u.nodes| >= |t.nodes|
            && u.nodes[j] == if t.nodes[j].nodeKey == NormaliseLocationKey(location)
                             then t.nodes[j].(anomalySignal := Max(t.nodes[j].anomalySignal, Clamp01(reading)))
                             else t.nodes[j]
  {
    var key := NormaliseLocationKey(location);
    var (v, node) := NodeUpserted(t, location, "waypoint");
    assert v.nodes[j] == t.nodes[j];
    assert t.nodes[j] in t.nodes;
    if t.nodes[j].nodeKey == key {
      FirstKeyIndex(t.nodes, key, j);
    }
  }

  /** A node that the reading's location has only now been given starts from the clamped reading. */
  lemma SensorReadingAtNewPlace(t: Tables, routeId: Id, location: string, reading: real)
    requires NodesWellFormed(t.nodes, t.nextId) && KeyIndex(t.nodes, NormaliseLocationKey(location)) == None
    ensures var u := PositionUpdated(t, routeId, location, Some(reading));
            && |u.nodes| == |t.nodes| + 1
            && u.nodes[|t.nodes|] == RouteNode(t.nextId, NormaliseLocationKey(location), location, "waypoint", Clamp01(reading))
  {
  }

  lemma {:induction false} FirstKeyIndex(nodes: seq<RouteNode>, key: string, j: nat)
    requires j < |nodes| && nodes[j].nodeKey == key && forall k :: 0 <= k < j ==> nodes[k].nodeKey != key
    ensures KeyIndex(nodes, key) == Some(j)
  {
    if j == 0 {
    } else {
      FirstKeyIndex(nodes[1..], key, j - 1);
    }
  }
}
