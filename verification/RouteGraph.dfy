/** The in-memory route graph of backend/src/models/predictive_routing.rs. */
module RouteGraphs {
  import opened Prelude

  type Id = nat

  datatype RouteNode = RouteNode(
    id: Id,
    nodeKey: string,
    displayName: string,
    nodeType: string,
    anomalySignal: real)

  datatype RouteEdge = RouteEdge(
    source: Id,
    dest: Id,
    stddevTransitHours: real,
    historicalDelayRate: real,
    totalShipments: nat,
    isDisrupted: bool)

  datatype RouteGraph = RouteGraph(nodes: seq<RouteNode>, edges: seq<RouteEdge>)

  /** The primary key of `route_nodes`. */
  ghost predicate UniqueIds(nodes: seq<RouteNode>) {
    forall i, j :: 0 <= i < j < |nodes| ==> nodes[i].id != nodes[j].id
  }

  /** Position of the first node with the given id: `nodes.iter().find(..)`. */
  function NodeIndex(nodes: seq<RouteNode>, id: Id): (r: Option<nat>)
    ensures r.Some? ==> r.value < |nodes| && nodes[r.value].id == id
    ensures r.Some? ==> forall k :: 0 <= k < r.value ==> nodes[k].id != id
    ensures r.None? ==> forall k :: 0 <= k < |nodes| ==> nodes[k].id != id
  {
    if nodes == [] then None
    else if nodes[0].id == id then Some(0)
    else match NodeIndex(nodes[1..], id)
      case None => None
      case Some(i) => Some(i + 1)
  }

  function FindNode(nodes: seq<RouteNode>, id: Id): Option<RouteNode> {
    match NodeIndex(nodes, id)
    case None => None
    case Some(i) => Some(nodes[i])
  }

  predicate Touches(e: RouteEdge, id: Id) {
    e.source == id || e.dest == id
  }

  function Peer(e: RouteEdge, id: Id): Id {
    if e.source == id then e.dest else e.source
  }

  /** What one edge contributes to `neighbours(id)`: its peer, unless that peer is missing from `nodes`. */
  function Contribution(nodes: seq<RouteNode>, e: RouteEdge, id: Id): seq<RouteNode> {
    if Touches(e, id) then
      match FindNode(nodes, Peer(e, id))
      case None => []
      case Some(n) => [n]
    else []
  }

  /** `RouteGraph::neighbours`: one entry per touching edge, so parallel and opposite edges count twice. */
  function Neighbours(nodes: seq<RouteNode>, edges: seq<RouteEdge>, id: Id): seq<RouteNode> {
    if edges == [] then []
    else Contribution(nodes, edges[0], id) + Neighbours(nodes, edges[1..], id)
  }

  lemma {:induction false} NeighboursSplit(nodes: seq<RouteNode>, a: seq<RouteEdge>, b: seq<RouteEdge>, id: Id)
    ensures Neighbours(nodes, a + b, id) == Neighbours(nodes, a, id) + Neighbours(nodes, b, id)
  {
    if a == [] {
      assert a + b == b;
    } else {
      assert (a + b)[1..] == a[1..] + b;
      NeighboursSplit(nodes, a[1..], b, id);
    }
  }

  /** The edge joins the two nodes, in either direction. */
  predicate Joins(e: RouteEdge, a: Id, b: Id) {
    (e.source == a && e.dest == b) || (e.source == b && e.dest == a)
  }

  /** The edge joins the node to one that exists. */
  ghost predicate LeadsSomewhere(nodes: seq<RouteNode>, e: RouteEdge, id: Id) {
    exists n :: n in nodes && Joins(e, id, n.id)
  }

  /** Neighbours are the existing far ends of the edges that touch a node, one for each such edge, in edge order. */
  ghost predicate FarEnds(at: seq<nat>, nodes: seq<RouteNode>, edges: seq<RouteEdge>, id: Id, ns: seq<RouteNode>) {
    && Climbing(at, |edges|)
    && |at| == |ns|
    && (forall i :: 0 <= i < |at| ==> Joins(edges[at[i]], id, ns[i].id) && ns[i] in nodes)
    && (forall k :: 0 <= k < |edges| && LeadsSomewhere(nodes, edges[k], id) ==> k in at)
  }

  lemma {:induction false} NeighboursAreFarEnds(nodes: seq<RouteNode>, edges: seq<RouteEdge>, id: Id) returns (at: seq<nat>)
    ensures FarEnds(at, nodes, edges, id, Neighbours(nodes, edges, id))
  {
    if edges == [] {
      at := [];
    } else {
      var init, last := edges[..|edges| - 1], edges[|edges| - 1];
      at := NeighboursAreFarEnds(nodes, init, id);
      assert edges == init + [last];
      NeighboursSplit(nodes, init, [last], id);
      FarEndsMore(at, nodes, init, id, last);
      if Contribution(nodes, last, id) != [] {
        at := at + [|init|];
      }
    }
  }

  lemma OneContribution(nodes: seq<RouteNode>, e: RouteEdge, id: Id)
    ensures Neighbours(nodes, [e], id) == Contribution(nodes, e, id)
    ensures |Contribution(nodes, e, id)| <= 1
    ensures Contribution(nodes, e, id) != [] <==> LeadsSomewhere(nodes, e, id)
    ensures Contribution(nodes, e, id) != [] ==>
              Joins(e, id, Contribution(nodes, e, id)[0].id) && Contribution(nodes, e, id)[0] in nodes
  {
    assert [e][1..] == [];
  }

  lemma FarEndsMore(at: seq<nat>, nodes: seq<RouteNode>, edges: seq<RouteEdge>, id: Id, e: RouteEdge)
    requires FarEnds(at, nodes, edges, id, Neighbours(nodes, edges, id))
    ensures FarEnds(if Contribution(nodes, e, id) == [] then at else at + [|edges|],
                    nodes, edges + [e], id, Neighbours(nodes, edges, id) + Neighbours(nodes, [e], id))
  {
    OneContribution(nodes, e, id);
    var c := Contribution(nodes, e, id);
    var more := if c == [] then at else at + [|edges|];
    forall k | 0 <= k < |edges + [e]| && LeadsSomewhere(nodes, (edges + [e])[k], id)
      ensures k in more
    {
      if k < |edges| {
        assert LeadsSomewhere(nodes, edges[k], id);
        assert k in at;
      } else {
        assert more[|at|] == k;
      }
    }
  }

  /** `RouteGraph::edge`: the first edge with this ordered pair. */
  function FindEdge(edges: seq<RouteEdge>, src: Id, dst: Id): (r: Option<RouteEdge>)
    ensures r.Some? ==> r.value in edges && r.value.source == src && r.value.dest == dst
    ensures r.None? ==> forall e :: e in edges ==> !(e.source == src && e.dest == dst)
  {
    if edges == [] then None
    else if edges[0].source == src && edges[0].dest == dst then Some(edges[0])
    else FindEdge(edges[1..], src, dst)
  }

  /** The row returned is the first with its ordered pair. */
  lemma {:induction false} FindEdgeIsFirst(edges: seq<RouteEdge>, i: nat)
    requires i < |edges|
    requires forall k :: 0 <= k < i ==> !(edges[k].source == edges[i].source && edges[k].dest == edges[i].dest)
    ensures FindEdge(edges, edges[i].source, edges[i].dest) == Some(edges[i])
  {
    if i == 0 {
    } else {
      FindEdgeIsFirst(edges[1..], i - 1);
    }
  }

  // ---- Two graphs with the same shape ----

  /** Same nodes in the same positions and the same edges; the signals may differ. */
  ghost predicate SameTopology(g: RouteGraph, h: RouteGraph) {
    && |g.nodes| == |h.nodes|
    && (forall i :: 0 <= i < |g.nodes| ==> g.nodes[i].id == h.nodes[i].id)
    && g.edges == h.edges
  }

  /** Every node's signal in `g` is at most its signal in `h`. */
  ghost predicate SignalsAtMost(g: RouteGraph, h: RouteGraph) {
    && SameTopology(g, h)
    && (forall i :: 0 <= i < |g.nodes| ==> g.nodes[i].anomalySignal <= h.nodes[i].anomalySignal)
  }

  lemma SameTopologyFinds(g: RouteGraph, h: RouteGraph, id: Id)
    requires SameTopology(g, h)
    ensures NodeIndex(g.nodes, id) == NodeIndex(h.nodes, id)
  {
    var a, b := NodeIndex(g.nodes, id), NodeIndex(h.nodes, id);
    if a.Some? {
      assert h.nodes[a.value].id == id;
    }
    if b.Some? {
      assert g.nodes[b.value].id == id;
    }
  }

  /** Where in `nodes` each entry of `Neighbours` was found. */
  ghost function NeighbourPositions(nodes: seq<RouteNode>, edges: seq<RouteEdge>, id: Id): (r: seq<nat>)
    ensures |r| == |Neighbours(nodes, edges, id)|
    ensures forall i :: 0 <= i < |r| ==> r[i] < |nodes| && Neighbours(nodes, edges, id)[i] == nodes[r[i]]
  {
    if edges == [] then []
    else
      var rest := NeighbourPositions(nodes, edges[1..], id);
      if Touches(edges[0], id) && NodeIndex(nodes, Peer(edges[0], id)).Some?
      then [NodeIndex(nodes, Peer(edges[0], id)).value] + rest
      else rest
  }

  /** The i-th neighbours of a node in two same-shaped graphs sit at the same position. */
  lemma {:induction false} NeighboursCorrespond(g: RouteGraph, h: RouteGraph, edges: seq<RouteEdge>, id: Id)
    requires SameTopology(g, h)
    ensures NeighbourPositions(g.nodes, edges, id) == NeighbourPositions(h.nodes, edges, id)
  {
    if edges == [] {
    } else {
      NeighboursCorrespond(g, h, edges[1..], id);
      SameTopologyFinds(g, h, Peer(edges[0], id));
    }
  }
}
