// The road graph of graph.js, walks over it and their lengths.
module RoadNetwork {
  import opened Basics

  datatype Coord = Coord(lat: real, lon: real)

  datatype Landmark = Landmark(id: int, name: string, pos: Coord)

  // A distance between coordinates, in km. The program uses the haversine formula; every
  // result below holds for any function that is a metric.
  type Distance = (Coord, Coord) -> real

  ghost predicate IsMetric(d: Distance) {
    && (forall a, b :: d(a, b) >= 0.0)
    && (forall a :: d(a, a) == 0.0)
    && (forall a, b :: d(a, b) == d(b, a))
    && (forall a, b, c :: d(a, c) <= d(a, b) + d(b, c))
  }

  datatype Arc = Arc(to: int, km: real)

  // `order` is the insertion order of the Map `node`, the order in which it is iterated.
  datatype RoadGraph = RoadGraph(order: seq<int>, node: map<int, Landmark>, adj: map<int, seq<Arc>>)

  ghost predicate Edge(G: RoadGraph, u: int, v: int) {
    HasArc(G.adj, u, v)
  }

  ghost predicate HasArc(adj: map<int, seq<Arc>>, u: int, v: int) {
    u in adj && exists i :: 0 <= i < |adj[u]| && adj[u][i].to == v
  }

  // Straight-line km between two nodes.
  ghost function Between(node: map<int, Landmark>, d: Distance, u: int, v: int): real {
    if u in node && v in node then d(node[u].pos, node[v].pos) else 0.0
  }

  ghost function Straight(G: RoadGraph, d: Distance, u: int, v: int): real {
    Between(G.node, d, u, v)
  }

  // What loadGraph builds: every arc leads to a known node and carries the straight-line
  // length, and roads run both ways.
  ghost predicate Valid(G: RoadGraph, d: Distance) {
    && G.adj.Keys == G.node.Keys
    && Distinct(G.order) && Elements(G.order) == G.node.Keys
    && GoodArcs(G.node, G.adj, d)
    && (forall u, v :: Edge(G, u, v) ==> Edge(G, v, u))
  }

  ghost predicate GoodArcs(node: map<int, Landmark>, adj: map<int, seq<Arc>>, d: Distance) {
    forall u, i :: u in adj && 0 <= i < |adj[u]| ==> GoodArc(node, d, u, adj[u][i])
  }

  ghost predicate GoodArc(node: map<int, Landmark>, d: Distance, u: int, arc: Arc) {
    arc.to in node && arc.km == Between(node, d, u, arc.to)
  }

  // ---- walks ----

  ghost predicate IsWalk(G: RoadGraph, p: seq<int>, s: int, t: int) {
    && p != []
    && p[0] == s
    && p[|p| - 1] == t
    && forall i :: 0 <= i < |p| - 1 ==> Edge(G, p[i], p[i + 1])
  }

  ghost function Cost(G: RoadGraph, d: Distance, p: seq<int>): real {
    if |p| < 2 then 0.0
    else Cost(G, d, p[..|p| - 1]) + Straight(G, d, p[|p| - 2], p[|p| - 1])
  }

  ghost predicate Reachable(G: RoadGraph, s: int, t: int) {
    exists p :: IsWalk(G, p, s, t)
  }

  ghost predicate Connected(G: RoadGraph) {
    forall s, t :: s in G.node && t in G.node ==> Reachable(G, s, t)
  }

  // c is no longer than any walk from s to t.
  ghost predicate Minimal(G: RoadGraph, d: Distance, s: int, t: int, c: real) {
    forall p :: IsWalk(G, p, s, t) ==> c <= Cost(G, d, p)
  }

  // c is the road distance from s to t.
  ghost predicate RoadDistance(G: RoadGraph, d: Distance, s: int, t: int, c: real) {
    Minimal(G, d, s, t, c) && exists p :: IsWalk(G, p, s, t) && Cost(G, d, p) == c
  }

  // The length of a walk, hop by hop: the straight lines between its nodes, one after another.
  lemma CostByHop(G: RoadGraph, d: Distance, p: seq<int>)
    ensures |p| < 2 ==> Cost(G, d, p) == 0.0
    ensures |p| >= 2 && p[|p| - 2] in G.node && p[|p| - 1] in G.node ==>
              Cost(G, d, p) == Cost(G, d, p[..|p| - 1]) + d(G.node[p[|p| - 2]].pos, G.node[p[|p| - 1]].pos)
  {
  }

  lemma WalkExtend(G: RoadGraph, d: Distance, p: seq<int>, s: int, u: int, v: int)
    requires IsWalk(G, p, s, u) && Edge(G, u, v)
    ensures IsWalk(G, p + [v], s, v)
    ensures Cost(G, d, p + [v]) == Cost(G, d, p) + Straight(G, d, u, v)
  {
    assert (p + [v])[..|p|] == p;
  }

  lemma WalkSplit(G: RoadGraph, p: seq<int>, s: int, t: int, i: nat)
    requires IsWalk(G, p, s, t) && i < |p|
    ensures IsWalk(G, p[..i + 1], s, p[i]) && IsWalk(G, p[i..], p[i], t)
  {
  }

  lemma {:induction false} CostSplit(G: RoadGraph, d: Distance, p: seq<int>, i: nat)
    requires i < |p|
    ensures Cost(G, d, p) == Cost(G, d, p[..i + 1]) + Cost(G, d, p[i..])
    decreases |p|
  {
    if i == |p| - 1 {
      assert p[..i + 1] == p;
    } else {
      var q := p[..|p| - 1];
      CostSplit(G, d, q, i);
      assert q[..i + 1] == p[..i + 1];
      assert q[i..] == p[i..][..|p[i..]| - 1];
    }
  }

  lemma {:induction false} WalkJoin(G: RoadGraph, d: Distance, p: seq<int>, q: seq<int>, s: int, m: int, t: int)
    requires IsWalk(G, p, s, m) && IsWalk(G, q, m, t)
    ensures IsWalk(G, p + q[1..], s, t)
    ensures Cost(G, d, p + q[1..]) == Cost(G, d, p) + Cost(G, d, q)
  {
    var r := p + q[1..];
    forall i | 0 <= i < |r| - 1 ensures Edge(G, r[i], r[i + 1]) {
      if i >= |p| - 1 {
        assert r[i] == q[i - (|p| - 1)];
        assert r[i + 1] == q[i + 1 - (|p| - 1)];
      }
    }
    CostSplit(G, d, r, |p| - 1);
    assert r[..|p|] == p;
    assert r[|p| - 1..] == q;
  }

  // Both ends of a walk of at least two nodes are known nodes, and so is all between.
  lemma WalkNodes(G: RoadGraph, d: Distance, p: seq<int>, s: int, t: int)
    requires Valid(G, d) && IsWalk(G, p, s, t) && (s in G.node || t in G.node)
    ensures forall i :: 0 <= i < |p| ==> p[i] in G.node
  {
    forall i | 0 <= i < |p| ensures p[i] in G.node {
      if i + 1 < |p| {
        assert Edge(G, p[i], p[i + 1]);
      } else if i > 0 {
        assert Edge(G, p[i - 1], p[i]);
        assert Edge(G, p[i], p[i - 1]);
      }
    }
  }

  lemma {:induction false} CostNonNegative(G: RoadGraph, d: Distance, p: seq<int>)
    requires IsMetric(d)
    ensures Cost(G, d, p) >= 0.0
    decreases |p|
  {
    if |p| >= 2 {
      CostNonNegative(G, d, p[..|p| - 1]);
    }
  }

  // The heuristic is admissible from everywhere: no walk is shorter than the straight line.
  lemma {:induction false} StraightIsShortest(G: RoadGraph, d: Distance, p: seq<int>, s: int, t: int)
    requires IsMetric(d) && Valid(G, d) && IsWalk(G, p, s, t) && s in G.node
    ensures Straight(G, d, s, t) <= Cost(G, d, p)
    decreases |p|
  {
    if |p| >= 2 {
      var n := |p| - 1;
      WalkSplit(G, p, s, t, n - 1);
      StraightIsShortest(G, d, p[..n], s, p[n - 1]);
      WalkNodes(G, d, p, s, t);
    }
  }

  // ---- road distance is itself a metric ----

  ghost function Reversed(p: seq<int>): (r: seq<int>)
    ensures |r| == |p| && forall i :: 0 <= i < |p| ==> r[i] == p[|p| - 1 - i]
  {
    if p == [] then [] else [p[|p| - 1]] + Reversed(p[..|p| - 1])
  }

  lemma {:induction false} CostReversed(G: RoadGraph, d: Distance, p: seq<int>, s: int, t: int)
    requires IsMetric(d) && Valid(G, d) && IsWalk(G, p, s, t)
    ensures IsWalk(G, Reversed(p), t, s) && Cost(G, d, Reversed(p)) == Cost(G, d, p)
    decreases |p|
  {
    if |p| == 1 {
      assert Reversed(p) == p;
    } else {
      var n := |p| - 1;
      var q := p[..n];
      WalkSplit(G, p, s, t, n - 1);
      CostReversed(G, d, q, s, p[n - 1]);
      assert Edge(G, p[n - 1], t) && Edge(G, t, p[n - 1]);
      ReversedHop(p);
      StraightSymmetric(G, d, t, p[n - 1]);
      hide IsMetric, Valid, Edge, Straight;
      OneHop(G, d, t, p[n - 1]);
      WalkJoin(G, d, [t, p[n - 1]], Reversed(q), t, p[n - 1], s);
    }
  }

  lemma StraightSymmetric(G: RoadGraph, d: Distance, u: int, v: int)
    requires IsMetric(d)
    ensures Straight(G, d, u, v) == Straight(G, d, v, u)
  {
  }

  lemma ReversedHop(p: seq<int>)
    requires |p| >= 2
    ensures Reversed(p) == [p[|p| - 1], p[|p| - 2]] + Reversed(p[..|p| - 1])[1..]
  {
  }

  lemma OneHop(G: RoadGraph, d: Distance, u: int, v: int)
    requires Edge(G, u, v)
    ensures IsWalk(G, [u, v], u, v) && Cost(G, d, [u, v]) == Straight(G, d, u, v)
  {
    assert [u, v][..1] == [u];
  }

  lemma RoadDistanceSymmetric(G: RoadGraph, d: Distance, a: int, b: int, c: real)
    requires IsMetric(d) && Valid(G, d) && RoadDistance(G, d, a, b, c)
    ensures RoadDistance(G, d, b, a, c)
  {
    var p :| IsWalk(G, p, a, b) && Cost(G, d, p) == c;
    CostReversed(G, d, p, a, b);
    forall q | IsWalk(G, q, b, a) ensures c <= Cost(G, d, q) {
      CostReversed(G, d, q, b, a);
    }
  }

  lemma RoadDistanceTriangle(G: RoadGraph, d: Distance, a: int, b: int, c: int, ab: real, bc: real)
    requires RoadDistance(G, d, a, b, ab) && RoadDistance(G, d, b, c, bc)
    ensures Reachable(G, a, c)
    ensures forall ac :: RoadDistance(G, d, a, c, ac) ==> ac <= ab + bc
  {
    var p :| IsWalk(G, p, a, b) && Cost(G, d, p) == ab;
    var q :| IsWalk(G, q, b, c) && Cost(G, d, q) == bc;
    WalkJoin(G, d, p, q, a, b, c);
  }

  lemma RoadDistanceAboveStraight(G: RoadGraph, d: Distance, a: int, b: int, c: real)
    requires IsMetric(d) && Valid(G, d) && a in G.node && RoadDistance(G, d, a, b, c)
    ensures Straight(G, d, a, b) <= c
    ensures a == b ==> c == 0.0
  {
    var p :| IsWalk(G, p, a, b) && Cost(G, d, p) == c;
    StraightIsShortest(G, d, p, a, b);
    CostNonNegative(G, d, p);
    if a == b {
      assert IsWalk(G, [a], a, b);
      assert Cost(G, d, [a]) == 0.0;
    }
  }

  // ---- building and querying the graph ----

  datatype RawGraph = RawGraph(nodes: seq<Landmark>, edges: seq<(int, int)>)

  // `new Map(pairs)`: a repeated id keeps its first position and takes the last value.
  function NodeOrder(nodes: seq<Landmark>): (r: seq<int>)
    ensures Distinct(r)
    ensures forall id :: id in r <==> exists k :: 0 <= k < |nodes| && nodes[k].id == id
  {
    if nodes == [] then [] else
      var n := |nodes| - 1;
      assert forall k :: 0 <= k < n ==> nodes[..n][k] == nodes[k];
      Adding(NodeOrder(nodes[..n]), nodes[n].id)
  }

  // The order is that of first occurrences in the file.
  lemma {:induction false} NodeOrderMeaning(nodes: seq<Landmark>, i: nat, j: nat) returns (x: nat, y: nat)
    requires i < j < |nodes|
    requires forall k :: 0 <= k < i ==> nodes[k].id != nodes[i].id
    requires forall k :: 0 <= k < j ==> nodes[k].id != nodes[j].id
    ensures x < y < |NodeOrder(nodes)| && NodeOrder(nodes)[x] == nodes[i].id && NodeOrder(nodes)[y] == nodes[j].id
  {
    var n := |nodes| - 1;
    var before := NodeOrder(nodes[..n]);
    assert forall k :: 0 <= k < n ==> nodes[..n][k] == nodes[k];
    if j < n {
      x, y := NodeOrderMeaning(nodes[..n], i, j);
    } else {
      assert nodes[..n][i].id in before && nodes[n].id !in before;
      x :| 0 <= x < |before| && before[x] == nodes[i].id;
      y := |before|;
    }
  }

  function NodeMap(nodes: seq<Landmark>): map<int, Landmark> {
    if nodes == [] then map[]
    else NodeMap(nodes[..|nodes| - 1])[nodes[|nodes| - 1].id := nodes[|nodes| - 1]]
  }

  lemma {:induction false} NodeMapMeaning(nodes: seq<Landmark>, k: nat)
    requires k < |nodes| && forall j :: k < j < |nodes| ==> nodes[j].id != nodes[k].id
    ensures nodes[k].id in NodeMap(nodes) && NodeMap(nodes)[nodes[k].id] == nodes[k]
  {
    var n := |nodes| - 1;
    if k < n {
      NodeMapMeaning(nodes[..n], k);
    }
  }

  lemma {:induction false} NodeMapKeys(nodes: seq<Landmark>)
    ensures NodeMap(nodes).Keys == Elements(NodeOrder(nodes))
  {
    if nodes != [] {
      var n := |nodes| - 1;
      NodeMapKeys(nodes[..n]);
      assert forall x :: x in NodeOrder(nodes) <==> x in NodeOrder(nodes[..n]) || x == nodes[n].id;
    }
  }

  ghost predicate KnownEdges(edges: seq<(int, int)>, node: map<int, Landmark>) {
    forall k :: 0 <= k < |edges| ==> edges[k].0 in node && edges[k].1 in node
  }

  // A road in the file, in either direction.
  ghost predicate Listed(edges: seq<(int, int)>, u: int, v: int) {
    (u, v) in edges || (v, u) in edges
  }

  // loadGraph: None stands for the TypeError raised when an edge names an unknown node.
  method LoadGraph(raw: RawGraph, d: Distance) returns (r: Option<RoadGraph>)
    requires IsMetric(d)
    ensures r.Some? <==> KnownEdges(raw.edges, NodeMap(raw.nodes))
    ensures r.Some? ==> Valid(r.value, d) && r.value.node == NodeMap(raw.nodes) && r.value.order == NodeOrder(raw.nodes)
    ensures r.Some? ==> forall u, v :: Edge(r.value, u, v) <==> Listed(raw.edges, u, v)
    ensures r.Some? ==> forall u, i :: u in r.value.adj && 0 <= i < |r.value.adj[u]| ==>
              var arc := r.value.adj[u][i];
              u in r.value.node && arc.to in r.value.node
              && arc.km == d(r.value.node[u].pos, r.value.node[arc.to].pos)
              && ((u, arc.to) in raw.edges || (arc.to, u) in raw.edges)
  {
    var node := NodeMap(raw.nodes);
    var adj := LinkRoads(node, raw.edges, d);
    if adj.None? {
      return None;
    }
    NodeMapKeys(raw.nodes);
    r := Some(RoadGraph(NodeOrder(raw.nodes), node, adj.value));
    ArcsAreListed(node, adj.value, raw.edges, d);
  }

  lemma ArcsAreListed(node: map<int, Landmark>, adj: map<int, seq<Arc>>, edges: seq<(int, int)>, d: Distance)
    requires adj.Keys == node.Keys && GoodArcs(node, adj, d) && Roads(adj, edges)
    ensures forall u, i :: u in adj && 0 <= i < |adj[u]| ==>
              var arc := adj[u][i];
              u in node && arc.to in node && arc.km == d(node[u].pos, node[arc.to].pos)
              && ((u, arc.to) in edges || (arc.to, u) in edges)
  {
    forall u, i | u in adj && 0 <= i < |adj[u]|
      ensures GoodArc(node, d, u, adj[u][i]) && Listed(edges, u, adj[u][i].to)
    {
      assert HasArc(adj, u, adj[u][i].to);
    }
  }

  method LinkRoads(node: map<int, Landmark>, edges: seq<(int, int)>, d: Distance)
    returns (r: Option<map<int, seq<Arc>>>)
    requires IsMetric(d)
    ensures r.Some? <==> KnownEdges(edges, node)
    ensures r.Some? ==> r.value.Keys == node.Keys && GoodArcs(node, r.value, d) && Roads(r.value, edges)
  {
    var adj: map<int, seq<Arc>> := map id | id in node :: [];
    for k := 0 to |edges|
      invariant KnownEdges(edges[..k], node)
      invariant adj.Keys == node.Keys && GoodArcs(node, adj, d)
      invariant Roads(adj, edges[..k])
    {
      var (a, b) := edges[k];
      if a !in node || b !in node {
        return None;
      }
      var w := d(node[a].pos, node[b].pos);
      ghost var before := adj;
      adj := adj[a := adj[a] + [Arc(b, w)]];
      adj := adj[b := adj[b] + [Arc(a, w)]];
      RoadAdded(before, adj, a, b, w, edges[..k]);
      assert edges[..k + 1] == edges[..k] + [(a, b)];
    }
    assert edges[..|edges|] == edges;
    return Some(adj);
  }

  // The adjacency lists hold exactly the listed roads.
  ghost predicate Roads(adj: map<int, seq<Arc>>, edges: seq<(int, int)>) {
    forall u, v :: HasArc(adj, u, v) <==> Listed(edges, u, v)
  }

  lemma RoadAdded(adj: map<int, seq<Arc>>, adj': map<int, seq<Arc>>, a: int, b: int, w: real, edges: seq<(int, int)>)
    requires a in adj && b in adj && Roads(adj, edges)
    requires var one := adj[a := adj[a] + [Arc(b, w)]]; adj' == one[b := one[b] + [Arc(a, w)]]
    ensures Roads(adj', edges + [(a, b)])
  {
    assert adj'[a][|adj[a]|] == Arc(b, w);
    assert adj'[b][|adj'[b]| - 1] == Arc(a, w);
    forall u, v ensures HasArc(adj', u, v) <==> Listed(edges + [(a, b)], u, v) {
      if HasArc(adj, u, v) {
        var i :| 0 <= i < |adj[u]| && adj[u][i].to == v;
        assert adj'[u][i] == adj[u][i];
      }
      if HasArc(adj', u, v) {
        var i :| 0 <= i < |adj'[u]| && adj'[u][i].to == v;
        assert HasArc(adj, u, v) || (u == a && v == b) || (u == b && v == a) by {
          if i < |adj[u]| { assert adj'[u][i] == adj[u][i]; }
        }
      }
    }
  }

  // nearestNode: the closest landmark, the earliest in Map order among equals; null only
  // for a graph with no nodes.
  method NearestNode(G: RoadGraph, d: Distance, pos: Coord) returns (best: Option<int>)
    requires Valid(G, d)
    ensures best.None? <==> G.order == []
    ensures best.Some? ==> IsNearest(G, d, pos, best.value)
  {
    best := None;
    var bestD := Infinity;
    for k := 0 to |G.order|
      invariant best.None? ==> k == 0 && bestD == Infinity
      invariant best.Some? ==> bestD.Finite? && NearestBefore(G, d, pos, k, best.value, bestD.km)
    {
      assert G.order[k] in Elements(G.order);
      var n := G.node[G.order[k]];
      var dist := d(pos, n.pos);
      if Less(Finite(dist), bestD) {
        bestD := Finite(dist);
        best := Some(G.order[k]);
      }
    }
  }

  // The nearest landmark is no farther than any other, and nearer than every one before it in
  // the order of iteration.
  lemma NearestMeans(G: RoadGraph, d: Distance, pos: Coord, n: int)
    requires Valid(G, d) && IsNearest(G, d, pos, n)
    ensures forall m :: m in G.node ==> d(pos, G.node[n].pos) <= d(pos, G.node[m].pos)
    ensures exists i :: 0 <= i < |G.order| && G.order[i] == n &&
              forall j :: 0 <= j < i ==>
                G.order[j] in G.node && d(pos, G.node[n].pos) < d(pos, G.node[G.order[j]].pos)
  {
    assert forall k :: 0 <= k < |G.order| ==> G.order[k] in Elements(G.order);
    forall m | m in G.node ensures d(pos, G.node[n].pos) <= d(pos, G.node[m].pos) {
      assert m in Elements(G.order);
      var j :| 0 <= j < |G.order| && G.order[j] == m;
      assert d(pos, G.node[n].pos) <= Off(G, d, pos, j);
    }
    var i :| 0 <= i < |G.order| && G.order[i] == n && d(pos, G.node[n].pos) == Off(G, d, pos, i)
             && (forall j :: 0 <= j < |G.order| ==> d(pos, G.node[n].pos) <= Off(G, d, pos, j))
             && (forall j :: 0 <= j < i ==> d(pos, G.node[n].pos) < Off(G, d, pos, j));
    forall j | 0 <= j < i ensures G.order[j] in G.node && d(pos, G.node[n].pos) < d(pos, G.node[G.order[j]].pos) {
      assert d(pos, G.node[n].pos) < Off(G, d, pos, j);
    }
  }

  // How far the landmark at position i of the iteration order is from pos.
  ghost function Off(G: RoadGraph, d: Distance, pos: Coord, i: nat): real
    requires i < |G.order|
  {
    if G.order[i] in G.node then d(pos, G.node[G.order[i]].pos) else 0.0
  }

  ghost predicate NearestBefore(G: RoadGraph, d: Distance, pos: Coord, k: nat, n: int, km: real)
    requires k <= |G.order|
  {
    exists i :: 0 <= i < k && G.order[i] == n && km == Off(G, d, pos, i)
                && (forall j :: 0 <= j < k ==> km <= Off(G, d, pos, j))
                && (forall j :: 0 <= j < i ==> km < Off(G, d, pos, j))
  }

  ghost predicate IsNearest(G: RoadGraph, d: Distance, pos: Coord, n: int) {
    n in G.node && NearestBefore(G, d, pos, |G.order|, n, d(pos, G.node[n].pos))
  }
}
