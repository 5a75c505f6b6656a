/**
 One-hop signal propagation (`propagate_graph_signals`) and what any number of rounds of it does
 to an arbitrary route graph.
 */
module Propagation {
  import opened Prelude
  import opened RouteGraphs

  function Signals(ns: seq<RouteNode>): (r: seq<real>)
    ensures |r| == |ns| && forall i :: 0 <= i < |ns| ==> r[i] == ns[i].anomalySignal
  {
    seq(|ns|, i requires 0 <= i < |ns| => ns[i].anomalySignal)
  }

  function MeanSignal(ns: seq<RouteNode>): real
    requires ns != []
  {
    Sum(Signals(ns)) / |ns| as real
  }

  /** The value written for one node; a node without neighbours is skipped. */
  function NewSignal(g: RouteGraph, node: RouteNode): real {
    var ns := Neighbours(g.nodes, g.edges, node.id);
    if ns == [] then node.anomalySignal
    else Max(node.anomalySignal, MeanSignal(ns) * 0.8)
  }

  /** The simultaneous update: every node's new value read from the same snapshot. */
  function Propagate(g: RouteGraph): (h: RouteGraph)
    ensures |h.nodes| == |g.nodes| && h.edges == g.edges
    ensures forall i {:trigger h.nodes[i]} :: 0 <= i < |g.nodes| ==>
              h.nodes[i] == g.nodes[i].(anomalySignal := NewSignal(g, g.nodes[i]))
  {
    RouteGraph(seq(|g.nodes|, i requires 0 <= i < |g.nodes| => g.nodes[i].(anomalySignal := NewSignal(g, g.nodes[i]))),
               g.edges)
  }

  function Rounds(g: RouteGraph, k: nat): RouteGraph
    decreases k
  {
    if k == 0 then g else Propagate(Rounds(g, k - 1))
  }

  lemma {:induction false} RoundsKeepTopology(g: RouteGraph, k: nat)
    ensures SameTopology(g, Rounds(g, k))
  {
    if k == 0 {
    } else {
      RoundsKeepTopology(g, k - 1);
    }
  }

  // ---- Means ----

  lemma MeanBounded(ns: seq<RouteNode>, lo: real, hi: real)
    requires ns != []
    requires forall i :: 0 <= i < |ns| ==> lo <= ns[i].anomalySignal <= hi
    ensures lo <= MeanSignal(ns) <= hi
  {
    SumBetween(Signals(ns), lo, hi);
    DivideBounds(Sum(Signals(ns)), |ns| as real, lo, hi);
  }

  lemma MeanMonotone(a: seq<RouteNode>, b: seq<RouteNode>)
    requires |a| == |b| && a != []
    requires forall i :: 0 <= i < |a| ==> a[i].anomalySignal <= b[i].anomalySignal
    ensures MeanSignal(a) <= MeanSignal(b)
  {
    SumMonotone(Signals(a), Signals(b));
    DivideMonotone(Sum(Signals(a)), Sum(Signals(b)), |a| as real);
  }

  // ---- One round and many rounds: growth, range, maximum, monotonicity ----

  ghost predicate SignalsWithin(g: RouteGraph, lo: real, hi: real) {
    forall i :: 0 <= i < |g.nodes| ==> lo <= g.nodes[i].anomalySignal <= hi
  }

  lemma NewSignalBounds(g: RouteGraph, j: nat, hi: real)
    requires j < |g.nodes| && SignalsWithin(g, 0.0, hi)
    ensures g.nodes[j].anomalySignal <= NewSignal(g, g.nodes[j]) <= hi
  {
    var ns := Neighbours(g.nodes, g.edges, g.nodes[j].id);
    if ns != [] {
      var at := NeighbourPositions(g.nodes, g.edges, g.nodes[j].id);
      assert forall i :: 0 <= i < |ns| ==> ns[i] == g.nodes[at[i]];
      MeanBounded(ns, 0.0, hi);
    }
  }

  /** No signal ever decreases, and none leaves [0, hi]. */
  lemma {:induction false} RoundsNeverDecrease(g: RouteGraph, k: nat, hi: real)
    requires SignalsWithin(g, 0.0, hi)
    ensures SignalsAtMost(g, Rounds(g, k))
    ensures SignalsWithin(Rounds(g, k), 0.0, hi)
  {
    if k == 0 {
    } else {
      RoundsNeverDecrease(g, k - 1, hi);
      var p := Rounds(g, k - 1);
      forall j | 0 <= j < |p.nodes|
        ensures p.nodes[j].anomalySignal <= NewSignal(p, p.nodes[j]) <= hi
      {
        NewSignalBounds(p, j, hi);
      }
    }
  }

  /** `hi` is the largest signal of the graph. */
  ghost predicate IsMaxSignal(g: RouteGraph, hi: real) {
    && (forall i :: 0 <= i < |g.nodes| ==> g.nodes[i].anomalySignal <= hi)
    && (exists i :: 0 <= i < |g.nodes| && g.nodes[i].anomalySignal == hi)
  }

  /** With non-negative signals the graph's maximum is the same before and after any number of rounds. */
  lemma MaximumIsConserved(g: RouteGraph, k: nat, hi: real)
    requires forall i :: 0 <= i < |g.nodes| ==> 0.0 <= g.nodes[i].anomalySignal
    ensures IsMaxSignal(g, hi) <==> IsMaxSignal(Rounds(g, k), hi)
  {
    if g.nodes != [] {
      var m := LargestSignal(g);
      RoundsNeverDecrease(g, k, m);
      var i :| 0 <= i < |g.nodes| && g.nodes[i].anomalySignal == m;
      assert Rounds(g, k).nodes[i].anomalySignal == m;
      assert IsMaxSignal(Rounds(g, k), m);
      if IsMaxSignal(g, hi) {
        assert hi == m;
      }
      if IsMaxSignal(Rounds(g, k), hi) {
        assert hi == m;
      }
    } else {
      RoundsKeepTopology(g, k);
    }
  }

  ghost function LargestSignal(g: RouteGraph): (m: real)
    requires g.nodes != []
    ensures IsMaxSignal(g, m)
    decreases |g.nodes|
  {
    if |g.nodes| == 1 then
      g.nodes[0].anomalySignal
    else
      var rest := g.(nodes := g.nodes[1..]);
      var m := LargestSignal(rest);
      assert exists i :: 0 <= i < |rest.nodes| && rest.nodes[i].anomalySignal == m && g.nodes[i + 1].anomalySignal == m;
      if g.nodes[0].anomalySignal >= m then g.nodes[0].anomalySignal else m
  }

  /** Raising signals beforehand never lowers any signal after k rounds. */
  lemma {:induction false} RoundsMonotone(g: RouteGraph, h: RouteGraph, k: nat)
    requires SignalsAtMost(g, h)
    ensures SignalsAtMost(Rounds(g, k), Rounds(h, k))
  {
    if k == 0 {
    } else {
      RoundsMonotone(g, h, k - 1);
      var p, q := Rounds(g, k - 1), Rounds(h, k - 1);
      forall j | 0 <= j < |p.nodes|
        ensures NewSignal(p, p.nodes[j]) <= NewSignal(q, q.nodes[j])
      {
        var id := p.nodes[j].id;
        NeighboursCorrespond(p, q, p.edges, id);
        var a, b := Neighbours(p.nodes, p.edges, id), Neighbours(q.nodes, q.edges, id);
        var at := NeighbourPositions(p.nodes, p.edges, id);
        assert forall i :: 0 <= i < |a| ==> a[i] == p.nodes[at[i]] && b[i] == q.nodes[at[i]];
        if a != [] {
          MeanMonotone(a, b);
        }
      }
    }
  }

  // ---- Distance from the signalled nodes ----

  ghost predicate Signalled(g: RouteGraph, id: Id) {
    var n := FindNode(g.nodes, id);
    n.Some? && n.value.anomalySignal != 0.0
  }

  /** Some initially signalled node lies within n hops of `id`. */
  ghost predicate Near(g: RouteGraph, id: Id, n: nat)
    decreases n
  {
    if n == 0 then Signalled(g, id)
    else
      var ns := Neighbours(g.nodes, g.edges, id);
      Near(g, id, n - 1) || exists i :: 0 <= i < |ns| && Near(g, ns[i].id, n - 1)
  }

  ghost predicate IsNeighbour(g: RouteGraph, id: Id, peer: Id) {
    exists u :: u in Neighbours(g.nodes, g.edges, id) && u.id == peer
  }

  /** A walk of at most n hops from `id` to a signalled node, each stop being a neighbour of the one before. */
  ghost predicate WalkToSignal(g: RouteGraph, p: seq<Id>, id: Id, n: nat) {
    && 0 < |p| <= n + 1
    && p[0] == id
    && (forall i :: 0 <= i < |p| - 1 ==> IsNeighbour(g, p[i], p[i + 1]))
    && Signalled(g, p[|p| - 1])
  }

  /** `Near` implies such a walk ... */
  lemma {:induction false} NearHasWalk(g: RouteGraph, id: Id, n: nat) returns (p: seq<Id>)
    requires Near(g, id, n)
    ensures WalkToSignal(g, p, id, n)
    decreases n
  {
    if n == 0 {
      p := [id];
    } else if Near(g, id, n - 1) {
      p := NearHasWalk(g, id, n - 1);
    } else {
      var ns := Neighbours(g.nodes, g.edges, id);
      var i :| 0 <= i < |ns| && Near(g, ns[i].id, n - 1);
      assert IsNeighbour(g, id, ns[i].id);
      var rest := NearHasWalk(g, ns[i].id, n - 1);
      p := [id] + rest;
      forall m | 0 <= m < |p| - 1
        ensures IsNeighbour(g, p[m], p[m + 1])
      {
        if m > 0 {
          assert IsNeighbour(g, rest[m - 1], rest[(m - 1) + 1]);
        }
      }
    }
  }

  /** ... and every such walk makes its start `Near`: it is exactly hop distance. */
  lemma {:induction false} WalkIsNear(g: RouteGraph, p: seq<Id>, id: Id, n: nat)
    requires WalkToSignal(g, p, id, n)
    ensures Near(g, id, n)
    decreases n
  {
    if |p| == 1 {
      NearAtZero(g, id, n);
    } else {
      assert IsNeighbour(g, p[0], p[0 + 1]);
      var ns := Neighbours(g.nodes, g.edges, id);
      var i :| 0 <= i < |ns| && ns[i].id == p[1];
      WalkIsNear(g, p[1..], p[1], n - 1);
    }
  }

  lemma {:induction false} NearAtZero(g: RouteGraph, id: Id, n: nat)
    requires Signalled(g, id)
    ensures Near(g, id, n)
  {
    if n == 0 {
    } else {
      NearAtZero(g, id, n - 1);
    }
  }

  function Power(b: real, d: nat): real {
    if d == 0 then 1.0 else b * Power(b, d - 1)
  }

  /** `top` damped d times over. */
  function Decayed(top: real, d: nat): real {
    Power(0.8, d) * top
  }

  lemma DecayedOnce(top: real, d: nat)
    ensures Decayed(top, d + 1) == 0.8 * Decayed(top, d)
  {
    var p := Power(0.8, d);
    assert (0.8 * p) * top == 0.8 * (p * top);
  }

  lemma {:induction false} DecayedShrinks(top: real, d: nat, e: nat)
    requires top >= 0.0 && d <= e
    ensures 0.0 <= Decayed(top, e) <= Decayed(top, d)
  {
    if e == 0 {
    } else {
      DecayedShrinks(top, if d < e then d else e - 1, e - 1);
      DecayedOnce(top, e - 1);
    }
  }

  /** A node reads itself back by its own id. */
  lemma FindsItself(nodes: seq<RouteNode>, j: nat)
    requires UniqueIds(nodes) && j < |nodes|
    ensures FindNode(nodes, nodes[j].id) == Some(nodes[j])
  {
    var i := NodeIndex(nodes, nodes[j].id);
    assert i.Some? && nodes[i.value].id == nodes[j].id;
  }

  /** One round moves a node's signal at most to the larger of its own bound and 0.8 of its neighbours'. */
  lemma RoundBound(g: RouteGraph, p: RouteGraph, j: nat, own: real, peers: real)
    requires SameTopology(g, p) && j < |g.nodes|
    requires 0.0 <= p.nodes[j].anomalySignal <= own
    requires forall m :: m in NeighbourPositions(g.nodes, g.edges, g.nodes[j].id) ==>
               m < |g.nodes| && 0.0 <= p.nodes[m].anomalySignal <= peers
    ensures 0.0 <= Propagate(p).nodes[j].anomalySignal <= Max(own, peers * 0.8)
  {
    NeighboursCorrespond(g, p, g.edges, g.nodes[j].id);
    var ns := Neighbours(p.nodes, p.edges, p.nodes[j].id);
    var at := NeighbourPositions(p.nodes, p.edges, p.nodes[j].id);
    if ns != [] {
      forall i | 0 <= i < |ns|
        ensures 0.0 <= ns[i].anomalySignal <= peers
      {
        assert at[i] in at;
      }
      MeanBounded(ns, 0.0, peers);
    }
  }

  /**
   A lower bound on hop distance: one number per node, zero on every signalled node, changing by at most
   one across an edge.
   */
  ghost predicate IsDistanceLabel(g: RouteGraph, hops: seq<nat>) {
    && |hops| == |g.nodes|
    && (forall j :: 0 <= j < |g.nodes| && hops[j] > 0 ==> g.nodes[j].anomalySignal == 0.0)
    && (forall j, m {:trigger m in NeighbourPositions(g.nodes, g.edges, g.nodes[j].id)} ::
          0 <= j < |g.nodes| && m in NeighbourPositions(g.nodes, g.edges, g.nodes[j].id) ==>
          m < |g.nodes| && hops[j] <= hops[m] + 1)
  }

  /** Every signal of `p` lies between zero and its own ceiling. */
  ghost predicate UnderCeiling(p: RouteGraph, ceiling: seq<real>) {
    && |ceiling| == |p.nodes|
    && forall j :: 0 <= j < |p.nodes| ==> 0.0 <= p.nodes[j].anomalySignal <= ceiling[j]
  }

  /** What arrives at a node stays under its next ceiling. */
  ghost predicate CeilingAdmits(g: RouteGraph, now: seq<real>, next: seq<real>) {
    && |now| == |next| == |g.nodes|
    && (forall j :: 0 <= j < |now| ==> now[j] <= next[j])
    && (forall j, m {:trigger m in NeighbourPositions(g.nodes, g.edges, g.nodes[j].id)} ::
          0 <= j < |now| && m in NeighbourPositions(g.nodes, g.edges, g.nodes[j].id) ==>
          m < |now| && now[m] * 0.8 <= next[j])
  }

  /** One round takes signals under `now` to signals under any ceiling that admits it. */
  lemma RoundUnderCeiling(g: RouteGraph, p: RouteGraph, now: seq<real>, next: seq<real>)
    requires SameTopology(g, p) && UnderCeiling(p, now) && CeilingAdmits(g, now, next)
    ensures UnderCeiling(Propagate(p), next)
  {
    forall j | 0 <= j < |p.nodes|
      ensures 0.0 <= Propagate(p).nodes[j].anomalySignal <= next[j]
    {
      forall m | m in NeighbourPositions(g.nodes, g.edges, g.nodes[j].id)
        ensures m < |g.nodes| && 0.0 <= p.nodes[m].anomalySignal <= next[j] / 0.8
      {
        assert now[m] <= next[j] / 0.8;
      }
      RoundBound(g, p, j, next[j], next[j] / 0.8);
    }
  }

  /** The ceiling top * 0.8^hops. */
  function DecayCeiling(hops: seq<nat>, top: real): (c: seq<real>)
    ensures |c| == |hops| && forall j :: 0 <= j < |c| ==> c[j] == Decayed(top, hops[j])
  {
    seq(|hops|, j requires 0 <= j < |hops| => Decayed(top, hops[j]))
  }

  lemma DecayAdmits(g: RouteGraph, hops: seq<nat>, top: real)
    requires IsDistanceLabel(g, hops) && top >= 0.0
    ensures CeilingAdmits(g, DecayCeiling(hops, top), DecayCeiling(hops, top))
  {
    forall j, m | 0 <= j < |hops| && m in NeighbourPositions(g.nodes, g.edges, g.nodes[j].id)
      ensures m < |hops| && DecayCeiling(hops, top)[m] * 0.8 <= DecayCeiling(hops, top)[j]
    {
      DampedOnceMore(top, hops[j], hops[m]);
    }
  }

  lemma DampedOnceMore(top: real, d: nat, e: nat)
    requires top >= 0.0 && d <= e + 1
    ensures Decayed(top, e) * 0.8 <= Decayed(top, d)
  {
    DecayedShrinks(top, d, e + 1);
    DecayedOnce(top, e);
  }

  lemma DecayAtStart(g: RouteGraph, hops: seq<nat>, top: real)
    requires IsDistanceLabel(g, hops) && SignalsWithin(g, 0.0, top) && top >= 0.0
    ensures UnderCeiling(g, DecayCeiling(hops, top))
  {
    forall j | 0 <= j < |g.nodes|
      ensures 0.0 <= g.nodes[j].anomalySignal <= Decayed(top, hops[j])
    {
      DecayedShrinks(top, 0, hops[j]);
    }
  }

  /** Decay along any distance labelling: at most 0.8^hops times the initial maximum after any number of rounds. */
  lemma {:induction false} LabelBoundsSignal(g: RouteGraph, hops: seq<nat>, top: real, k: nat)
    requires IsDistanceLabel(g, hops) && SignalsWithin(g, 0.0, top) && top >= 0.0
    ensures UnderCeiling(Rounds(g, k), DecayCeiling(hops, top))
    decreases k
  {
    if k == 0 {
      DecayAtStart(g, hops, top);
    } else {
      LabelBoundsSignal(g, hops, top, k - 1);
      RoundsKeepTopology(g, k - 1);
      DecayAdmits(g, hops, top);
      RoundUnderCeiling(g, Rounds(g, k - 1), DecayCeiling(hops, top), DecayCeiling(hops, top));
    }
  }

  /** Every node labelled beyond k hops is silent. */
  ghost predicate SilentPast(p: RouteGraph, hops: seq<nat>, k: nat) {
    && |hops| == |p.nodes|
    && forall j :: 0 <= j < |p.nodes| && hops[j] > k ==> p.nodes[j].anomalySignal == 0.0
  }

  lemma SilenceStep(g: RouteGraph, p: RouteGraph, hops: seq<nat>, k: nat)
    requires SameTopology(g, p) && IsDistanceLabel(g, hops) && SilentPast(p, hops, k)
    ensures SilentPast(Propagate(p), hops, k + 1)
  {
    forall j | 0 <= j < |p.nodes| && hops[j] > k + 1
      ensures Propagate(p).nodes[j].anomalySignal == 0.0
    {
      RoundBound(g, p, j, 0.0, 0.0);
    }
  }

  /** Silence beyond the horizon, for any distance labelling. */
  lemma {:induction false} LabelKeepsSilence(g: RouteGraph, hops: seq<nat>, k: nat)
    requires IsDistanceLabel(g, hops)
    ensures SilentPast(Rounds(g, k), hops, k)
    decreases k
  {
    if k == 0 {
    } else {
      LabelKeepsSilence(g, hops, k - 1);
      RoundsKeepTopology(g, k - 1);
      SilenceStep(g, Rounds(g, k - 1), hops, k - 1);
    }
  }

  /** Hop distance from the signalled nodes, cut off at `cap`. */
  ghost function CappedDistance(g: RouteGraph, id: Id, cap: nat): (c: nat)
    ensures c <= cap
    ensures c > 0 ==> !Near(g, id, c - 1)
    ensures c < cap ==> Near(g, id, c)
  {
    if cap == 0 then 0
    else if Near(g, id, cap - 1) then CappedDistance(g, id, cap - 1)
    else cap
  }

  lemma {:induction false} NearMonotone(g: RouteGraph, id: Id, m: nat, n: nat)
    requires m <= n && Near(g, id, m)
    ensures Near(g, id, n)
  {
    if m < n {
      NearMonotone(g, id, m, n - 1);
    }
  }

  /** What is within m hops but not within n has m above n. */
  lemma NearMonotoneContra(g: RouteGraph, id: Id, m: nat, n: nat)
    requires Near(g, id, m) && !Near(g, id, n)
    ensures n < m
  {
    if m <= n {
      NearMonotone(g, id, m, n);
    }
  }

  lemma NeighbourNear(g: RouteGraph, id: Id, i: nat, n: nat)
    requires i < |Neighbours(g.nodes, g.edges, id)|
    requires Near(g, Neighbours(g.nodes, g.edges, id)[i].id, n)
    ensures Near(g, id, n + 1)
  {
  }

  lemma DistanceStep(g: RouteGraph, id: Id, i: nat, cap: nat)
    requires i < |Neighbours(g.nodes, g.edges, id)|
    ensures CappedDistance(g, id, cap) <= CappedDistance(g, Neighbours(g.nodes, g.edges, id)[i].id, cap) + 1
  {
    var peer := Neighbours(g.nodes, g.edges, id)[i].id;
    var c, e := CappedDistance(g, id, cap), CappedDistance(g, peer, cap);
    if e < cap {
      NeighbourNear(g, id, i, e);
      if c > 0 {
        NearMonotoneContra(g, id, e + 1, c - 1);
      }
    }
  }

  ghost function DistanceLabel(g: RouteGraph, cap: nat): (hops: seq<nat>)
    ensures |hops| == |g.nodes|
    ensures forall j :: 0 <= j < |g.nodes| ==> hops[j] == CappedDistance(g, g.nodes[j].id, cap)
  {
    seq(|g.nodes|, j requires 0 <= j < |g.nodes| => CappedDistance(g, g.nodes[j].id, cap))
  }

  lemma DistanceIsLabel(g: RouteGraph, cap: nat)
    requires UniqueIds(g.nodes)
    ensures IsDistanceLabel(g, DistanceLabel(g, cap))
  {
    var hops := DistanceLabel(g, cap);
    forall j | 0 <= j < |g.nodes| && hops[j] > 0
      ensures g.nodes[j].anomalySignal == 0.0
    {
      FindsItself(g.nodes, j);
      if g.nodes[j].anomalySignal != 0.0 {
        NearAtZero(g, g.nodes[j].id, hops[j] - 1);
      }
    }
    forall j, m | 0 <= j < |g.nodes| && m in NeighbourPositions(g.nodes, g.edges, g.nodes[j].id)
      ensures m < |g.nodes| && hops[j] <= hops[m] + 1
    {
      var at := NeighbourPositions(g.nodes, g.edges, g.nodes[j].id);
      var i :| 0 <= i < |at| && at[i] == m;
      DistanceStep(g, g.nodes[j].id, i, cap);
    }
  }

  /**
   A node at least d hops from every signalled node never exceeds 0.8^d times the initial maximum,
   however many rounds run.
   */
  lemma SignalDecaysWithDistance(g: RouteGraph, top: real, k: nat, j: nat, d: nat)
    requires UniqueIds(g.nodes) && SignalsWithin(g, 0.0, top) && top >= 0.0
    requires j < |g.nodes|
    requires d == 0 || !Near(g, g.nodes[j].id, d - 1)
    ensures |Rounds(g, k).nodes| == |g.nodes|
    ensures 0.0 <= Rounds(g, k).nodes[j].anomalySignal <= Decayed(top, d)
  {
    var hops := DistanceLabel(g, d);
    DistanceIsLabel(g, d);
    LabelBoundsSignal(g, hops, top, k);
    assert hops[j] == d;
    assert DecayCeiling(hops, top)[j] == Decayed(top, d);
  }

  /** After k rounds every node further than k hops from the signalled nodes is still exactly zero. */
  lemma SilentBeyondHorizon(g: RouteGraph, k: nat, j: nat)
    requires UniqueIds(g.nodes) && j < |g.nodes|
    requires !Near(g, g.nodes[j].id, k)
    ensures |Rounds(g, k).nodes| == |g.nodes|
    ensures Rounds(g, k).nodes[j].anomalySignal == 0.0
  {
    DistanceIsLabel(g, k + 1);
    LabelKeepsSilence(g, DistanceLabel(g, k + 1), k);
    assert CappedDistance(g, g.nodes[j].id, k + 1) == k + 1;
  }

  ghost predicate NonNegative(g: RouteGraph) {
    forall i :: 0 <= i < |g.nodes| ==> 0.0 <= g.nodes[i].anomalySignal
  }

  lemma RoundsStayNonNegative(g: RouteGraph, k: nat)
    requires NonNegative(g)
    ensures SignalsAtMost(g, Rounds(g, k)) && NonNegative(Rounds(g, k))
  {
    if g.nodes == [] {
      RoundsKeepTopology(g, k);
    } else {
      RoundsNeverDecrease(g, k, LargestSignal(g));
    }
  }

  lemma NeighboursNonNegative(p: RouteGraph, id: Id)
    requires NonNegative(p)
    ensures forall k :: 0 <= k < |Neighbours(p.nodes, p.edges, id)| ==> 0.0 <= Neighbours(p.nodes, p.edges, id)[k].anomalySignal
  {
    var at := NeighbourPositions(p.nodes, p.edges, id);
  }

  lemma MeanPositive(ns: seq<RouteNode>, i: nat)
    requires i < |ns| && ns[i].anomalySignal > 0.0
    requires forall k :: 0 <= k < |ns| ==> 0.0 <= ns[k].anomalySignal
    ensures MeanSignal(ns) > 0.0
  {
    SumPositive(Signals(ns), i);
  }

  /** A positive signal reaches every neighbour in one round. */
  lemma SignalReachesNeighbour(p: RouteGraph, j: nat, i: nat)
    requires NonNegative(p) && j < |p.nodes|
    requires i < |Neighbours(p.nodes, p.edges, p.nodes[j].id)|
    requires Neighbours(p.nodes, p.edges, p.nodes[j].id)[i].anomalySignal > 0.0
    ensures NewSignal(p, p.nodes[j]) > 0.0
  {
    NeighboursNonNegative(p, p.nodes[j].id);
    MeanPositive(Neighbours(p.nodes, p.edges, p.nodes[j].id), i);
  }

  /** If the node is within k hops of a signalled node of `g` it is positive in `p`. */
  ghost predicate LitAt(g: RouteGraph, p: RouteGraph, k: nat, j: nat)
    requires j < |p.nodes| == |g.nodes|
  {
    Near(g, g.nodes[j].id, k) ==> p.nodes[j].anomalySignal > 0.0
  }

  ghost predicate LitWithin(g: RouteGraph, p: RouteGraph, k: nat) {
    && |p.nodes| == |g.nodes|
    && forall j :: 0 <= j < |g.nodes| ==> LitAt(g, p, k, j)
  }

  lemma LitOneFurther(g: RouteGraph, p: RouteGraph, k: nat, j: nat)
    requires SameTopology(g, p) && NonNegative(p) && LitWithin(g, p, k)
    requires j < |g.nodes| && Near(g, g.nodes[j].id, k + 1)
    ensures NewSignal(p, p.nodes[j]) > 0.0
  {
    if Near(g, g.nodes[j].id, k) {
      assert LitAt(g, p, k, j);
    } else {
      var i := NearNeighbour(g, g.nodes[j].id, k + 1);
      assert LitAt(g, p, k, NeighbourPositions(g.nodes, g.edges, g.nodes[j].id)[i]);
      OneMoreHop(g, p, j, i);
    }
  }

  lemma LitAtStart(g: RouteGraph)
    requires UniqueIds(g.nodes) && NonNegative(g)
    ensures LitWithin(g, g, 0)
  {
    forall j | 0 <= j < |g.nodes|
      ensures LitAt(g, g, 0, j)
    {
      FindsItself(g.nodes, j);
    }
  }

  /** What holds of a graph and survives a round, one step further each time, holds after any number of rounds. */
  lemma {:induction false} RoundsInduction(g: RouteGraph, k: nat, holds: (RouteGraph, nat) -> bool)
    requires NonNegative(g) && holds(g, 0)
    requires forall p, n: nat {:trigger Propagate(p), holds(p, n)} ::
               SameTopology(g, p) && NonNegative(p) && holds(p, n) ==> holds(Propagate(p), n + 1)
    ensures holds(Rounds(g, k), k)
    decreases k
  {
    if k == 0 {
    } else {
      RoundsInduction(g, k - 1, holds);
      RoundsKeepTopology(g, k - 1);
      RoundsStayNonNegative(g, k - 1);
      var p := Rounds(g, k - 1);
      assert holds(Propagate(p), (k - 1) + 1);
    }
  }

  lemma LitAfterRounds(g: RouteGraph, k: nat)
    requires UniqueIds(g.nodes) && NonNegative(g)
    ensures LitWithin(g, Rounds(g, k), k)
  {
    LitAtStart(g);
    forall p, n: nat | SameTopology(g, p) && NonNegative(p) && LitWithin(g, p, n)
      ensures LitWithin(g, Propagate(p), n + 1)
    {
      LitRound(g, p, n);
    }
    RoundsInduction(g, k, (p, n: nat) => LitWithin(g, p, n));
  }

  lemma LitRound(g: RouteGraph, p: RouteGraph, k: nat)
    requires SameTopology(g, p) && NonNegative(p) && LitWithin(g, p, k)
    ensures LitWithin(g, Propagate(p), k + 1)
  {
    var q, n := Propagate(p), k + 1;
    forall j | 0 <= j < |g.nodes|
      ensures LitAt(g, q, n, j)
    {
      if Near(g, g.nodes[j].id, k + 1) {
        LitOneFurther(g, p, k, j);
      }
    }
  }

  lemma OneMoreHop(g: RouteGraph, p: RouteGraph, j: nat, i: nat)
    requires SameTopology(g, p) && NonNegative(p) && j < |g.nodes|
    requires i < |Neighbours(g.nodes, g.edges, g.nodes[j].id)|
    requires p.nodes[NeighbourPositions(g.nodes, g.edges, g.nodes[j].id)[i]].anomalySignal > 0.0
    ensures NewSignal(p, p.nodes[j]) > 0.0
  {
    NeighboursCorrespond(g, p, g.edges, g.nodes[j].id);
    SignalReachesNeighbour(p, j, i);
  }

  lemma NearNeighbour(g: RouteGraph, id: Id, k: nat) returns (i: nat)
    requires k > 0 && Near(g, id, k) && !Near(g, id, k - 1)
    ensures i < |Neighbours(g.nodes, g.edges, id)| && Near(g, Neighbours(g.nodes, g.edges, id)[i].id, k - 1)
  {
    i :| 0 <= i < |Neighbours(g.nodes, g.edges, id)| && Near(g, Neighbours(g.nodes, g.edges, id)[i].id, k - 1);
  }

  /** The horizon is exact: after k rounds a node's signal is positive if and only if a signalled node lies within k hops. */
  lemma PositiveIffWithinHorizon(g: RouteGraph, k: nat, j: nat)
    requires UniqueIds(g.nodes) && NonNegative(g) && j < |g.nodes|
    ensures |Rounds(g, k).nodes| == |g.nodes|
    ensures Rounds(g, k).nodes[j].anomalySignal > 0.0 <==> Near(g, g.nodes[j].id, k)
  {
    LitAfterRounds(g, k);
    assert LitAt(g, Rounds(g, k), k, j);
    if !Near(g, g.nodes[j].id, k) {
      SilentBeyondHorizon(g, k, j);
    }
  }

  // ---- What one round writes, and how much reaches along a walk ----

  /** The signals at these positions. */
  function SignalsAt(g: RouteGraph, at: seq<nat>): (r: seq<real>)
    requires forall i :: 0 <= i < |at| ==> at[i] < |g.nodes|
    ensures |r| == |at| && forall i :: 0 <= i < |r| ==> r[i] == g.nodes[at[i]].anomalySignal
  {
    seq(|at|, i requires 0 <= i < |at| => g.nodes[at[i]].anomalySignal)
  }

  ghost function PeersOf(g: RouteGraph, j: nat): (at: seq<nat>)
    requires j < |g.nodes|
    ensures forall i :: 0 <= i < |at| ==> at[i] < |g.nodes|
  {
    NeighbourPositions(g.nodes, g.edges, g.nodes[j].id)
  }

  lemma PeerSignals(g: RouteGraph, j: nat)
    requires j < |g.nodes|
    ensures Signals(Neighbours(g.nodes, g.edges, g.nodes[j].id)) == SignalsAt(g, PeersOf(g, j))
  {
  }

  lemma QuotientIs(total: real, n: real, mean: real)
    requires n > 0.0 && mean * n == total
    ensures total / n == mean
  {
    var q := total / n;
    assert q * n == total;
    if q < mean {
      ScaleStrictly(q, mean, n);
    } else if mean < q {
      ScaleStrictly(mean, q, n);
    }
  }

  /** The number that the count of these values times makes their total. */
  ghost predicate IsMean(mean: real, xs: seq<real>) {
    mean * |xs| as real == Sum(xs)
  }

  lemma MeanIs(ns: seq<RouteNode>, mean: real)
    requires ns != [] && IsMean(mean, Signals(ns))
    ensures MeanSignal(ns) == mean
  {
    QuotientIs(Sum(Signals(ns)), |ns| as real, mean);
  }

  lemma MeanExists(xs: seq<real>)
    requires xs != []
    ensures IsMean(Sum(xs) / |xs| as real, xs)
  {
    var n := |xs| as real;
    assert Sum(xs) / n * n == Sum(xs);
  }

  lemma NewSignalIs(g: RouteGraph, node: RouteNode, mean: real)
    requires Neighbours(g.nodes, g.edges, node.id) != [] ==> MeanSignal(Neighbours(g.nodes, g.edges, node.id)) == mean
    ensures NewSignal(g, node) == if Neighbours(g.nodes, g.edges, node.id) == [] then node.anomalySignal
                                  else Max(node.anomalySignal, 0.8 * mean)
  {
  }

  /**
   One round writes for a node the larger of its own signal and 0.8 of its neighbours' mean. A node without
   neighbours keeps its signal.
   */
  lemma WrittenSignal(g: RouteGraph, j: nat, mean: real)
    requires j < |g.nodes| && IsMean(mean, SignalsAt(g, PeersOf(g, j)))
    ensures Propagate(g).nodes[j].anomalySignal
         == if PeersOf(g, j) == [] then g.nodes[j].anomalySignal else Max(g.nodes[j].anomalySignal, 0.8 * mean)
  {
    PeerSignals(g, j);
    PeersMean(Neighbours(g.nodes, g.edges, g.nodes[j].id), SignalsAt(g, PeersOf(g, j)), mean);
    NewSignalIs(g, g.nodes[j], mean);
  }

  lemma PeersMean(ns: seq<RouteNode>, xs: seq<real>, mean: real)
    requires Signals(ns) == xs && IsMean(mean, xs)
    ensures ns != [] ==> MeanSignal(ns) == mean
  {
    if ns != [] {
      MeanIs(ns, mean);
    }
  }

  /** Positions of nodes of which each has the next among its neighbours. */
  ghost predicate IsWalk(g: RouteGraph, w: seq<nat>) {
    && w != [] && w[0] < |g.nodes|
    && (|w| == 1 || (w[1] in PeersOf(g, w[0]) && IsWalk(g, w[1..])))
  }

  /** The signal at a walk's end, taken 0.8 times at each step back and divided among the neighbours of the stop reached. */
  ghost function Arriving(g: RouteGraph, w: seq<nat>): real
    requires IsWalk(g, w)
  {
    if |w| == 1 then g.nodes[w[0]].anomalySignal
    else 0.8 * (Arriving(g, w[1..]) / |PeersOf(g, w[0])| as real)
  }

  lemma SamePeers(g: RouteGraph, p: RouteGraph, j: nat)
    requires SameTopology(g, p) && j < |g.nodes|
    ensures PeersOf(p, j) == PeersOf(g, j)
  {
    NeighboursCorrespond(g, p, g.edges, g.nodes[j].id);
  }

  lemma PeersTotal(p: RouteGraph, at: seq<nat>, m: nat)
    requires NonNegative(p) && m in at && forall i :: 0 <= i < |at| ==> at[i] < |p.nodes|
    ensures m < |p.nodes| && Sum(SignalsAt(p, at)) >= p.nodes[m].anomalySignal
  {
    var i :| 0 <= i < |at| && at[i] == m;
    SumAtLeast(SignalsAt(p, at), i);
  }

  lemma MeanShare(xs: seq<real>, floor: real) returns (mean: real)
    requires xs != [] && Sum(xs) >= floor
    ensures IsMean(mean, xs) && mean >= floor / |xs| as real
  {
    mean := Sum(xs) / |xs| as real;
    MeanExists(xs);
    DivideMonotone(floor, Sum(xs), |xs| as real);
  }

  /** A neighbour's share in what a round writes. */
  lemma PeerShare(p: RouteGraph, j: nat, m: nat, floor: real)
    requires NonNegative(p) && j < |p.nodes| && m in PeersOf(p, j)
    requires m < |p.nodes| && p.nodes[m].anomalySignal >= floor
    ensures Propagate(p).nodes[j].anomalySignal >= 0.8 * (floor / |PeersOf(p, j)| as real)
  {
    PeersTotal(p, PeersOf(p, j), m);
    var mean := MeanShare(SignalsAt(p, PeersOf(p, j)), floor);
    WrittenSignal(p, j, mean);
  }

  lemma ArrivesOneFurther(g: RouteGraph, p: RouteGraph, w: seq<nat>)
    requires SameTopology(g, p) && NonNegative(p) && IsWalk(g, w) && |w| > 1
    requires p.nodes[w[1]].anomalySignal >= Arriving(g, w[1..])
    ensures Propagate(p).nodes[w[0]].anomalySignal >= Arriving(g, w)
  {
    SamePeers(g, p, w[0]);
    PeerShare(p, w[0], w[1], Arriving(g, w[1..]));
  }

  ghost predicate HasArrived(g: RouteGraph, p: RouteGraph, w: seq<nat>)
    requires IsWalk(g, w)
  {
    |p.nodes| == |g.nodes| && p.nodes[w[0]].anomalySignal >= Arriving(g, w)
  }

  /** Along every walk of n hops at least that much of the last stop's signal has come to the first. */
  ghost predicate AllArrived(g: RouteGraph, p: RouteGraph, n: nat) {
    forall w :: IsWalk(g, w) && |w| == n + 1 ==> HasArrived(g, p, w)
  }

  lemma AllArriveOneFurther(g: RouteGraph, p: RouteGraph, n: nat)
    requires SameTopology(g, p) && NonNegative(p) && AllArrived(g, p, n)
    ensures AllArrived(g, Propagate(p), n + 1)
  {
    forall w | IsWalk(g, w) && |w| == n + 2
      ensures HasArrived(g, Propagate(p), w)
    {
      assert IsWalk(g, w[1..]) && HasArrived(g, p, w[1..]);
      ArrivesOneFurther(g, p, w);
    }
  }

  lemma AllArrivedAtStart(g: RouteGraph)
    ensures AllArrived(g, g, 0)
  {
  }

  lemma AllArrivedAfterRounds(g: RouteGraph, k: nat)
    requires NonNegative(g)
    ensures AllArrived(g, Rounds(g, k), k)
  {
    AllArrivedAtStart(g);
    forall p, n: nat | SameTopology(g, p) && NonNegative(p) && AllArrived(g, p, n)
      ensures AllArrived(g, Propagate(p), n + 1)
    {
      AllArriveOneFurther(g, p, n);
    }
    var holds := (p: RouteGraph, n: nat) => AllArrived(g, p, n);
    RoundsInduction(g, k, holds);
    assert holds(Rounds(g, k), k);
  }

  /**
   Along a walk of k hops, k rounds bring at least the last stop's signal, taken 0.8 times at each step and
   divided by each earlier stop's number of neighbours, to the first stop.
   */
  lemma SignalArrivesAlongWalk(g: RouteGraph, w: seq<nat>, k: nat)
    requires NonNegative(g) && IsWalk(g, w) && |w| == k + 1
    ensures HasArrived(g, Rounds(g, k), w)
  {
    AllArrivedAfterRounds(g, k);
  }

  // ---- The snapshot may be loaded in any order ----

  /** The neighbours are the same, as often, for every order of the edge rows. */
  lemma {:induction false} EdgeOrderIrrelevant(nodes: seq<RouteNode>, a: seq<RouteEdge>, b: seq<RouteEdge>, id: Id)
    requires multiset(a) == multiset(b)
    ensures multiset(Neighbours(nodes, a, id)) == multiset(Neighbours(nodes, b, id))
  {
    if a == [] {
      assert |multiset(b)| == 0;
    } else {
      var j := TakeOutHead(a, b);
      var pre, post := b[..j], b[j + 1..];
      assert b == pre + ([a[0]] + post);
      EdgeOrderIrrelevant(nodes, a[1..], pre + post, id);
      NeighboursSplit(nodes, pre, [a[0]] + post, id);
      NeighboursSplit(nodes, pre, post, id);
      NeighboursSplit(nodes, [a[0]], post, id);
      NeighboursSplit(nodes, [a[0]], a[1..], id);
      assert a == [a[0]] + a[1..];
    }
  }

  lemma SameCount(ns: seq<RouteNode>, ms: seq<RouteNode>)
    requires multiset(ns) == multiset(ms)
    ensures |ns| == |ms|
  {
    assert |multiset(ns)| == |multiset(ms)|;
  }

  lemma SignalsJoin(a: seq<RouteNode>, b: seq<RouteNode>)
    ensures Signals(a + b) == Signals(a) + Signals(b)
  {
  }

  lemma {:induction false} SignalSumIgnoresOrder(ns: seq<RouteNode>, ms: seq<RouteNode>)
    requires multiset(ns) == multiset(ms)
    ensures Sum(Signals(ns)) == Sum(Signals(ms))
  {
    if ns == [] {
      assert |multiset(ms)| == 0;
    } else {
      var j := TakeOutHead(ns, ms);
      var x, pre, post := [ns[0]], ms[..j], ms[j + 1..];
      assert ns == x + ns[1..] && ms == pre + (x + post);
      SignalSumIgnoresOrder(ns[1..], pre + post);
      SignalsJoin(x, ns[1..]);
      SignalsJoin(pre, x + post);
      SignalsJoin(x, post);
      SignalsJoin(pre, post);
      SumSplits(Signals(x), Signals(ns[1..]));
      SumSplits(Signals(pre), Signals(x) + Signals(post));
      SumSplits(Signals(x), Signals(post));
      SumSplits(Signals(pre), Signals(post));
    }
  }

  /** With unique ids, a lookup does not depend on the order of the node rows. */
  lemma NodeOrderIrrelevant(a: seq<RouteNode>, b: seq<RouteNode>, id: Id)
    requires multiset(a) == multiset(b) && UniqueIds(a) && UniqueIds(b)
    ensures FindNode(a, id) == FindNode(b, id)
  {
    forall x
      ensures x in a <==> x in b
    {
      assert x in a <==> x in multiset(a);
      assert x in b <==> x in multiset(b);
    }
    var i := NodeIndex(a, id);
    if i.Some? {
      assert a[i.value] in b;
      var j :| 0 <= j < |b| && b[j] == a[i.value];
      FindsItself(b, j);
    } else {
      assert forall n :: n in a ==> n.id != id;
    }
  }

  lemma {:induction false} NeighboursIgnoreNodeOrder(a: seq<RouteNode>, b: seq<RouteNode>, edges: seq<RouteEdge>, id: Id)
    requires multiset(a) == multiset(b) && UniqueIds(a) && UniqueIds(b)
    ensures Neighbours(a, edges, id) == Neighbours(b, edges, id)
  {
    if edges == [] {
    } else {
      NodeOrderIrrelevant(a, b, Peer(edges[0], id));
      NeighboursIgnoreNodeOrder(a, b, edges[1..], id);
    }
  }

  /** The written value is the same for every load order of the node and edge tables. */
  lemma NewSignalIgnoresLoadOrder(g: RouteGraph, h: RouteGraph, node: RouteNode)
    requires multiset(g.nodes) == multiset(h.nodes) && multiset(g.edges) == multiset(h.edges)
    requires UniqueIds(g.nodes) && UniqueIds(h.nodes)
    ensures NewSignal(g, node) == NewSignal(h, node)
  {
    NeighboursIgnoreNodeOrder(g.nodes, h.nodes, g.edges, node.id);
    EdgeOrderIrrelevant(h.nodes, g.edges, h.edges, node.id);
    SameCount(Neighbours(h.nodes, g.edges, node.id), Neighbours(h.nodes, h.edges, node.id));
    SignalSumIgnoresOrder(Neighbours(h.nodes, g.edges, node.id), Neighbours(h.nodes, h.edges, node.id));
  }

  // ---- The loop itself ----

  /** `UPDATE route_nodes SET anomaly_signal = $1 WHERE id = $2`. */
  function WriteSignal(rows: seq<RouteNode>, id: Id, signal: real): (r: seq<RouteNode>)
    ensures |r| == |rows|
    ensures forall i :: 0 <= i < |rows| ==>
              r[i] == if rows[i].id == id then rows[i].(anomalySignal := signal) else rows[i]
  {
    seq(|rows|, i requires 0 <= i < |rows| =>
      if rows[i].id == id then rows[i].(anomalySignal := signal) else rows[i])
  }

  /** A table row once the loop has handled the first n nodes of the snapshot. */
  ghost function RowAfter(g: RouteGraph, n: nat, row: RouteNode): RouteNode
    requires n <= |g.nodes|
  {
    if exists m :: 0 <= m < n && g.nodes[m] == row then row.(anomalySignal := NewSignal(g, row)) else row
  }

  /** Handling the n-th snapshot node changes exactly the table row it was loaded from. */
  lemma RowStep(g: RouteGraph, table: seq<RouteNode>, n: nat, i: nat)
    requires UniqueIds(table) && multiset(g.nodes) == multiset(table) && UniqueIds(g.nodes)
    requires n < |g.nodes| && i < |table|
    ensures g.nodes[n].id == table[i].id <==> g.nodes[n] == table[i]
    ensures g.nodes[n] != table[i] ==> RowAfter(g, n + 1, table[i]) == RowAfter(g, n, table[i])
    ensures g.nodes[n] == table[i] ==>
              RowAfter(g, n, table[i]) == table[i]
              && RowAfter(g, n + 1, table[i]) == table[i].(anomalySignal := NewSignal(g, table[i]))
  {
    assert g.nodes[n] in multiset(table);
    var j :| 0 <= j < |table| && table[j] == g.nodes[n];
  }

  lemma AllRowsWritten(g: RouteGraph, table: seq<RouteNode>, edgeTable: seq<RouteEdge>, i: nat)
    requires UniqueIds(table) && UniqueIds(g.nodes) && i < |table|
    requires multiset(g.nodes) == multiset(table) && multiset(g.edges) == multiset(edgeTable)
    ensures RowAfter(g, |g.nodes|, table[i]) == Propagate(RouteGraph(table, edgeTable)).nodes[i]
  {
    assert table[i] in multiset(g.nodes);
    NewSignalIgnoresLoadOrder(g, RouteGraph(table, edgeTable), table[i]);
  }

  /**
   `propagate_graph_signals`: reads the loaded snapshot `graph` while updating the table row by row.
   Whatever order the snapshot was loaded in, the table ends as the simultaneous update of itself.
   */
  method PropagateGraphSignals(graph: RouteGraph, table: seq<RouteNode>, edgeTable: seq<RouteEdge>)
    returns (rows: seq<RouteNode>)
    requires UniqueIds(table) && UniqueIds(graph.nodes)
    requires multiset(graph.nodes) == multiset(table) && multiset(graph.edges) == multiset(edgeTable)
    ensures rows == Propagate(RouteGraph(table, edgeTable)).nodes
  {
    rows := table;
    var n := 0;
    while n < |graph.nodes|
      invariant 0 <= n <= |graph.nodes|
      invariant |rows| == |table|
      invariant forall i :: 0 <= i < |table| ==> rows[i] == RowAfter(graph, n, table[i])
    {
      var node := graph.nodes[n];
      var ns := Neighbours(graph.nodes, graph.edges, node.id);
      forall i | 0 <= i < |table| {
        RowStep(graph, table, n, i);
      }
      if ns != [] {
        rows := WriteSignal(rows, node.id, Max(node.anomalySignal, MeanSignal(ns) * 0.8));
      }
      n := n + 1;
    }
    forall i | 0 <= i < |table| {
      AllRowsWritten(graph, table, edgeTable, i);
    }
  }
}
