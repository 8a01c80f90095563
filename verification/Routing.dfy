// RoadGraph.aStar: the search keeps its open set as a plain scan, has no closed set, and
// rebuilds the path by following cameFrom.
module Routing {
  import opened Basics
  import opened RoadNetwork

  // TypeError: the search dereferences a node that the graph does not hold.
  datatype RouteResult = Route(path: seq<int>, costKm: real) | NoRoute | TypeError

  // The four collections the search updates.
  datatype Search = Search(g: map<int, real>, f: map<int, real>, cameFrom: map<int, int>, open: seq<int>)

  // One query, fixed for the whole search.
  datatype Query = Query(G: RoadGraph, d: Distance, start: int, goal: int)

  ghost predicate ValidQuery(q: Query) {
    IsMetric(q.d) && Valid(q.G, q.d) && q.start in q.G.node && q.goal in q.G.node
  }

  // The straight line to the goal.
  ghost function H(q: Query, u: int): real {
    Straight(q.G, q.d, u, q.goal)
  }

  // Consistency is derived, not assumed: an arc is a straight line, so the triangle
  // inequality bounds the heuristic across it.
  lemma HeuristicConsistent(q: Query, u: int, v: int)
    requires ValidQuery(q) && u in q.G.node && v in q.G.node
    ensures H(q, u) <= Straight(q.G, q.d, u, v) + H(q, v)
  {
  }

  // ---- the invariant ----
  // `closed` lists the nodes popped so far, in order; `trail[v]` is the walk that
  // following cameFrom back from v yields.

  ghost predicate Frontier(q: Query, s: Search, closed: seq<int>) {
    && Distinct(s.open) && Distinct(closed)
    && s.g.Keys == s.f.Keys == Elements(s.open) + Elements(closed)
    && Elements(s.open) !! Elements(closed)
    && s.g.Keys <= q.G.node.Keys
    && q.start in s.g
    && forall v :: v in s.g ==> s.f[v] == s.g[v] + H(q, v)
  }

  ghost predicate Trails(q: Query, s: Search, closed: seq<int>, trail: map<int, seq<int>>) {
    && trail.Keys == s.g.Keys
    && s.cameFrom.Keys == s.g.Keys - {q.start}
    && (forall v :: v in trail ==> TrailTo(q, s, closed, trail, v))
  }

  ghost predicate TrailTo(q: Query, s: Search, closed: seq<int>, trail: map<int, seq<int>>, v: int)
    requires v in trail && trail.Keys == s.g.Keys
  {
    && IsWalk(q.G, trail[v], q.start, v)
    && Cost(q.G, q.d, trail[v]) == s.g[v]
    && Distinct(trail[v])
    && (forall i :: 0 <= i < |trail[v]| - 1 ==> trail[v][i] in closed)
    && (v == q.start ==> trail[v] == [v])
    && (v in s.cameFrom ==> s.cameFrom[v] in trail && trail[v] == trail[s.cameFrom[v]] + [v])
  }

  // f never decreases along the pops, and nothing open lies below the last pop.
  ghost predicate Monotone(s: Search, closed: seq<int>, floor: real) {
    && (forall v :: v in closed ==> v in s.f && s.f[v] <= floor)
    && (forall v :: v in s.open ==> v in s.f && floor <= s.f[v])
    && (forall i, j :: 0 <= i < j < |closed| && closed[i] in s.f && closed[j] in s.f ==>
        s.f[closed[i]] <= s.f[closed[j]])
  }

  // Every popped node carries its exact road distance from the start.
  ghost predicate Exact(q: Query, s: Search, closed: seq<int>) {
    forall v :: v in closed ==> v in s.g && Minimal(q.G, q.d, q.start, v, s.g[v])
  }

  // v is known, and no farther than through u.
  ghost predicate Closer(q: Query, s: Search, u: int, v: int)
    requires u in s.g
  {
    v in s.g && s.g[v] <= s.g[u] + Straight(q.G, q.d, u, v)
  }

  // The first n arcs out of u have been relaxed.
  ghost predicate RelaxedArcs(q: Query, s: Search, u: int, n: nat) {
    && u in q.G.adj && n <= |q.G.adj[u]| && u in s.g
    && forall i :: 0 <= i < n ==> Closer(q, s, u, q.G.adj[u][i].to)
  }

  ghost predicate AllRelaxed(q: Query, s: Search, closed: seq<int>) {
    forall u :: u in closed ==> u in q.G.adj && RelaxedArcs(q, s, u, |q.G.adj[u]|)
  }

  // Everything popped has been relaxed in full, except that of `cur` only n arcs have been.
  ghost predicate Relaxed(q: Query, s: Search, closed: seq<int>, cur: int, n: nat) {
    && RelaxedArcs(q, s, cur, n)
    && forall u :: u in closed && u != cur ==> u in q.G.adj && RelaxedArcs(q, s, u, |q.G.adj[u]|)
  }

  ghost predicate AtLoopHead(q: Query, s: Search, closed: seq<int>, trail: map<int, seq<int>>, floor: real) {
    && Frontier(q, s, closed)
    && Trails(q, s, closed, trail)
    && Monotone(s, closed, floor)
    && Exact(q, s, closed)
    && AllRelaxed(q, s, closed)
    && q.goal !in closed
  }

  // As AtLoopHead, in the middle of relaxing the arcs of the node just popped.
  ghost predicate MidRelax(q: Query, s: Search, closed: seq<int>, trail: map<int, seq<int>>, cur: int, n: nat) {
    && closed != [] && closed[|closed| - 1] == cur
    && Frontier(q, s, closed)
    && Trails(q, s, closed, trail)
    && Monotone(s, closed, s.f[cur])
    && Exact(q, s, closed)
    && Relaxed(q, s, closed, cur, n)
    && q.goal !in closed
  }

  // ---- what a pop knows ----

  // Up to the first node not yet popped, g bounds the length of any walk from the start.
  lemma {:induction false} PrefixBound(q: Query, s: Search, closed: seq<int>, p: seq<int>, i: nat)
    requires ValidQuery(q) && Frontier(q, s, closed)
    requires s.g[q.start] <= 0.0
    requires AllRelaxed(q, s, closed)
    requires i < |p| && p[0] == q.start && forall k :: 0 <= k < |p| - 1 ==> Edge(q.G, p[k], p[k + 1])
    requires forall k :: 0 <= k < i ==> p[k] in closed
    ensures p[i] in s.g && s.g[p[i]] <= Cost(q.G, q.d, p[..i + 1])
  {
    if i > 0 {
      PrefixBound(q, s, closed, p, i - 1);
      var u, v := p[i - 1], p[i];
      assert Edge(q.G, u, v);
      var k :| 0 <= k < |q.G.adj[u]| && q.G.adj[u][k].to == v;
      assert RelaxedArcs(q, s, u, |q.G.adj[u]|);
      assert p[..i + 1][..i] == p[..i];
    }
  }

  // The first place where a walk leaves the popped nodes.
  ghost function Exit(closed: seq<int>, p: seq<int>): (i: nat)
    requires p != [] && p[|p| - 1] !in closed
    ensures i < |p| && p[i] !in closed && forall k :: 0 <= k < i ==> p[k] in closed
  {
    if p[0] !in closed then 0 else 1 + Exit(closed, p[1..])
  }

  // A walk to a node not yet popped passes an open node whose f does not exceed the length
  // of the walk plus the straight line from its end.
  lemma ExitBound(q: Query, s: Search, closed: seq<int>, p: seq<int>, v: int) returns (w: int)
    requires ValidQuery(q) && Frontier(q, s, closed) && AllRelaxed(q, s, closed) && s.g[q.start] <= 0.0
    requires IsWalk(q.G, p, q.start, v) && v !in closed
    ensures v in q.G.node && w in s.open && w in s.f && s.f[w] <= Cost(q.G, q.d, p) + H(q, v)
  {
    var i := Exit(closed, p);
    PrefixBound(q, s, closed, p, i);
    w := p[i];
    assert w in Elements(s.open);
    CostSplit(q.G, q.d, p, i);
    WalkSplit(q.G, p, q.start, v, i);
    StraightIsShortest(q.G, q.d, p[i..], w, v);
    WalkNodes(q.G, q.d, p, q.start, v);
    HeuristicConsistent(q, w, v);
  }

  // The core of optimality: an open node of least f already has its exact distance.
  lemma PopIsExact(q: Query, s: Search, closed: seq<int>, cur: int)
    requires ValidQuery(q) && Frontier(q, s, closed) && AllRelaxed(q, s, closed) && s.g[q.start] <= 0.0
    requires cur in s.open && forall v :: v in s.open ==> s.f[cur] <= s.f[v]
    ensures Minimal(q.G, q.d, q.start, cur, s.g[cur])
  {
    assert cur in Elements(s.open);
    forall p | IsWalk(q.G, p, q.start, cur) ensures s.g[cur] <= Cost(q.G, q.d, p) {
      var w := ExitBound(q, s, closed, p, cur);
    }
  }

  // The search stops no earlier than it must: every node whose straight-line estimate over
  // some walk beats km has been popped.
  ghost predicate Explored(q: Query, closed: seq<int>, km: real) {
    forall p, v :: IsWalk(q.G, p, q.start, v) && Cost(q.G, q.d, p) + H(q, v) < km ==> v in closed
  }

  lemma PopExplored(q: Query, s: Search, closed: seq<int>, trail: map<int, seq<int>>, floor: real, cur: int)
    requires ValidQuery(q) && AtLoopHead(q, s, closed, trail, floor)
    requires cur in s.open && forall v :: v in s.open ==> s.f[cur] <= s.f[v]
    ensures Explored(q, closed, s.f[cur])
  {
    StartIsZero(q, s, closed, trail);
    forall p, v | IsWalk(q.G, p, q.start, v) && Cost(q.G, q.d, p) + H(q, v) < s.f[cur] ensures v in closed {
      if v !in closed {
        var w := ExitBound(q, s, closed, p, v);
      }
    }
  }

  // With nothing left open, every reachable node has been popped, so the goal, which was
  // not, cannot be reached.
  lemma ExhaustedMeansAllPopped(q: Query, s: Search, closed: seq<int>, trail: map<int, seq<int>>, floor: real)
    requires ValidQuery(q) && AtLoopHead(q, s, closed, trail, floor) && s.open == []
    ensures forall v :: Reachable(q.G, q.start, v) ==> v in closed
    ensures !Reachable(q.G, q.start, q.goal)
  {
    StartIsZero(q, s, closed, trail);
    forall v | Reachable(q.G, q.start, v) ensures v in closed {
      var p :| IsWalk(q.G, p, q.start, v);
      if v !in closed {
        var w := ExitBound(q, s, closed, p, v);
      }
    }
  }

  lemma StartIsZero(q: Query, s: Search, closed: seq<int>, trail: map<int, seq<int>>)
    requires Frontier(q, s, closed) && Trails(q, s, closed, trail)
    ensures s.g[q.start] == 0.0
  {
    assert TrailTo(q, s, closed, trail, q.start);
  }

  // Popping a least open node enters its relaxation.
  lemma PopKeeps(q: Query, s: Search, closed: seq<int>, trail: map<int, seq<int>>, floor: real, cur: int)
    requires ValidQuery(q) && AtLoopHead(q, s, closed, trail, floor)
    requires cur in s.open && cur != q.goal && forall v :: v in s.open ==> s.f[cur] <= s.f[v]
    ensures MidRelax(q, s.(open := Without(s.open, cur)), closed + [cur], trail, cur, 0)
  {
    var s' := s.(open := Without(s.open, cur));
    assert cur in Elements(s.open) && cur !in Elements(closed) && cur in s.g;
    PopFrontier(q, s, closed, cur);
    PopTrails(q, s, closed, trail, cur);
    PopMonotone(s, closed, floor, cur);
    PopRelaxed(q, s, closed, cur);
    PopExact(q, s, closed, trail, cur);
  }

  lemma PopExact(q: Query, s: Search, closed: seq<int>, trail: map<int, seq<int>>, cur: int)
    requires ValidQuery(q) && Frontier(q, s, closed) && Trails(q, s, closed, trail) && AllRelaxed(q, s, closed)
    requires Exact(q, s, closed)
    requires cur in s.open && forall v :: v in s.open ==> s.f[cur] <= s.f[v]
    ensures Exact(q, s.(open := Without(s.open, cur)), closed + [cur])
  {
    assert cur in Elements(s.open);
    StartIsZero(q, s, closed, trail);
    PopIsExact(q, s, closed, cur);
  }

  lemma PopFrontier(q: Query, s: Search, closed: seq<int>, cur: int)
    requires Frontier(q, s, closed) && cur in s.open
    ensures Frontier(q, s.(open := Without(s.open, cur)), closed + [cur])
  {
    var s' := s.(open := Without(s.open, cur));
    WithoutDistinct(s.open, cur);
    assert cur in Elements(s.open) && cur !in Elements(closed);
    assert Elements(s'.open) == Elements(s.open) - {cur};
    assert Elements(closed + [cur]) == Elements(closed) + {cur};
    assert Distinct(closed + [cur]) by {
      assert cur !in closed;
    }
  }

  lemma PopTrails(q: Query, s: Search, closed: seq<int>, trail: map<int, seq<int>>, cur: int)
    requires Trails(q, s, closed, trail)
    ensures Trails(q, s.(open := Without(s.open, cur)), closed + [cur], trail)
  {
    var s' := s.(open := Without(s.open, cur));
    forall v | v in trail ensures TrailTo(q, s', closed + [cur], trail, v) {
      assert TrailTo(q, s, closed, trail, v);
    }
  }

  lemma PopMonotone(s: Search, closed: seq<int>, floor: real, cur: int)
    requires Monotone(s, closed, floor)
    requires cur in s.open && forall v :: v in s.open ==> v in s.f && s.f[cur] <= s.f[v]
    ensures Monotone(s.(open := Without(s.open, cur)), closed + [cur], s.f[cur])
  {
    var closed' := closed + [cur];
    assert forall i :: 0 <= i < |closed| ==> closed[i] in closed && closed'[i] == closed[i];
  }

  lemma PopRelaxed(q: Query, s: Search, closed: seq<int>, cur: int)
    requires cur in q.G.adj && cur in s.g && cur !in closed
    requires AllRelaxed(q, s, closed)
    ensures Relaxed(q, s.(open := Without(s.open, cur)), closed + [cur], cur, 0)
  {
    var s' := s.(open := Without(s.open, cur));
    forall u | u in closed ensures u in q.G.adj && RelaxedArcs(q, s', u, |q.G.adj[u]|) {
      assert RelaxedArcs(q, s, u, |q.G.adj[u]|);
    }
  }

  // ---- one arc ----

  // What the body of the inner loop does when the arc improves its end.
  ghost function Improve(q: Query, s: Search, cur: int, nb: int, tentative: real): Search {
    Search(s.g[nb := tentative], s.f[nb := tentative + H(q, nb)], s.cameFrom[nb := cur], Adding(s.open, nb))
  }

  // A popped node is never improved again, so no closed set is needed.
  lemma ClosedNeverImproves(q: Query, s: Search, closed: seq<int>, trail: map<int, seq<int>>, cur: int, n: nat)
    requires ValidQuery(q) && MidRelax(q, s, closed, trail, cur, n) && n < |q.G.adj[cur]|
    requires q.G.adj[cur][n].to in closed
    ensures s.g[q.G.adj[cur][n].to] <= s.g[cur] + q.G.adj[cur][n].km
  {
    var arc := q.G.adj[cur][n];
    assert GoodArc(q.G.node, q.d, cur, arc);
    assert cur in Elements(closed) && arc.to in Elements(closed);
    HeuristicConsistent(q, cur, arc.to);
  }

  lemma ImproveFacts(q: Query, s: Search, closed: seq<int>, trail: map<int, seq<int>>, cur: int, n: nat)
    requires ValidQuery(q) && MidRelax(q, s, closed, trail, cur, n) && n < |q.G.adj[cur]|
    requires Less(Finite(s.g[cur] + q.G.adj[cur][n].km), GetKm(s.g, q.G.adj[cur][n].to))
    ensures cur in closed && cur in s.g && cur in s.f && cur in trail
    ensures var nb, t := q.G.adj[cur][n].to, s.g[cur] + q.G.adj[cur][n].km;
            nb !in closed && nb in q.G.node && t == s.g[cur] + Straight(q.G, q.d, cur, nb) && s.f[cur] <= t + H(q, nb)
  {
    var arc := q.G.adj[cur][n];
    assert GoodArc(q.G.node, q.d, cur, arc);
    assert cur in Elements(closed);
    HeuristicConsistent(q, cur, arc.to);
    if arc.to in closed {
      ClosedNeverImproves(q, s, closed, trail, cur, n);
    }
  }

  lemma ImproveKeeps(q: Query, s: Search, closed: seq<int>, trail: map<int, seq<int>>, cur: int, n: nat, nb: int,
                     t: real)
    requires ValidQuery(q) && MidRelax(q, s, closed, trail, cur, n) && n < |q.G.adj[cur]|
    requires nb == q.G.adj[cur][n].to && t == s.g[cur] + q.G.adj[cur][n].km
    requires Less(Finite(t), GetKm(s.g, nb))
    ensures MidRelax(q, Improve(q, s, cur, nb, t), closed, trail[nb := trail[cur] + [nb]], cur, n + 1)
  {
    ImproveFacts(q, s, closed, trail, cur, n);
    ImproveFrontier(q, s, closed, cur, nb, t);
    ImproveTrails(q, s, closed, trail, cur, nb, t);
    ImproveMonotone(q, s, closed, cur, nb, t);
    ImproveRelaxed(q, s, closed, cur, n, nb, t);
    ImproveExact(q, s, closed, cur, nb, t);
  }

  lemma ImproveExact(q: Query, s: Search, closed: seq<int>, cur: int, nb: int, t: real)
    requires Exact(q, s, closed) && nb !in closed
    ensures Exact(q, Improve(q, s, cur, nb, t), closed)
  {
  }

  lemma ImproveRelaxed(q: Query, s: Search, closed: seq<int>, cur: int, n: nat, nb: int, t: real)
    requires cur in q.G.adj && n < |q.G.adj[cur]| && q.G.adj[cur][n].to == nb && nb !in closed && cur in closed
    requires Relaxed(q, s, closed, cur, n)
    requires t == s.g[cur] + Straight(q.G, q.d, cur, nb) && (nb in s.g ==> t <= s.g[nb])
    ensures Relaxed(q, Improve(q, s, cur, nb, t), closed, cur, n + 1)
  {
    var s' := Improve(q, s, cur, nb, t);
    assert RelaxedArcs(q, s, cur, n);
    forall u | u in closed && u != cur ensures u in q.G.adj && RelaxedArcs(q, s', u, |q.G.adj[u]|) {
      assert RelaxedArcs(q, s, u, |q.G.adj[u]|);
    }
  }

  lemma ImproveFrontier(q: Query, s: Search, closed: seq<int>, cur: int, nb: int, t: real)
    requires Frontier(q, s, closed) && nb in q.G.node && nb !in closed
    ensures Frontier(q, Improve(q, s, cur, nb, t), closed)
  {
    assert Elements(Adding(s.open, nb)) == Elements(s.open) + {nb};
  }

  lemma ImproveTrails(q: Query, s: Search, closed: seq<int>, trail: map<int, seq<int>>, cur: int, nb: int, t: real)
    requires Frontier(q, s, closed) && Trails(q, s, closed, trail)
    requires cur in closed && nb !in closed && Edge(q.G, cur, nb)
    requires cur in s.g && t == s.g[cur] + Straight(q.G, q.d, cur, nb)
    ensures Trails(q, Improve(q, s, cur, nb, t), closed, trail[nb := trail[cur] + [nb]])
  {
    var s' := Improve(q, s, cur, nb, t);
    var trail' := trail[nb := trail[cur] + [nb]];
    ImproveOwnTrail(q, s, closed, trail, cur, nb, t);
    forall v | v in trail && v != nb ensures TrailTo(q, s', closed, trail', v) {
      ImproveOtherTrail(q, s, closed, trail, cur, nb, t, v);
    }
  }

  lemma ImproveOwnTrail(q: Query, s: Search, closed: seq<int>, trail: map<int, seq<int>>, cur: int, nb: int, t: real)
    requires Trails(q, s, closed, trail)
    requires cur in closed && nb !in closed && Edge(q.G, cur, nb)
    requires cur in s.g && t == s.g[cur] + Straight(q.G, q.d, cur, nb)
    ensures nb != q.start && TrailTo(q, Improve(q, s, cur, nb, t), closed, trail[nb := trail[cur] + [nb]], nb)
  {
    assert TrailTo(q, s, closed, trail, cur);
    assert forall i :: 0 <= i < |trail[cur]| ==> trail[cur][i] in closed;
    assert nb !in trail[cur];
    DistinctAppend(trail[cur], nb);
    hide Distinct;
    assert trail[cur][0] == q.start;
    WalkExtend(q.G, q.d, trail[cur], q.start, cur, nb);
  }

  lemma ImproveOtherTrail(q: Query, s: Search, closed: seq<int>, trail: map<int, seq<int>>, cur: int, nb: int, t: real,
                          v: int)
    requires Trails(q, s, closed, trail)
    requires cur in trail && nb !in closed && v in trail && v != nb
    ensures TrailTo(q, Improve(q, s, cur, nb, t), closed, trail[nb := trail[cur] + [nb]], v)
  {
    assert TrailTo(q, s, closed, trail, v);
    if v in s.cameFrom {
      assert TrailTo(q, s, closed, trail, s.cameFrom[v]);
      assert trail[v][|trail[v]| - 2] == s.cameFrom[v];
    }
  }

  lemma ImproveMonotone(q: Query, s: Search, closed: seq<int>, cur: int, nb: int, t: real)
    requires Frontier(q, s, closed) && cur in closed && cur in s.f && Monotone(s, closed, s.f[cur])
    requires nb !in closed && s.f[cur] <= t + H(q, nb)
    ensures Monotone(Improve(q, s, cur, nb, t), closed, s.f[cur])
  {
    var s' := Improve(q, s, cur, nb, t);
    forall i, j | 0 <= i < j < |closed| && closed[i] in s'.f && closed[j] in s'.f
      ensures s'.f[closed[i]] <= s'.f[closed[j]]
    {
      assert closed[i] in closed && closed[j] in closed;
      assert closed[i] in s.f && closed[j] in s.f;
    }
  }

  // When the arc does not improve its end, the end was already at least as close.
  lemma SkipKeeps(q: Query, s: Search, closed: seq<int>, trail: map<int, seq<int>>, cur: int, n: nat)
    requires ValidQuery(q) && MidRelax(q, s, closed, trail, cur, n) && n < |q.G.adj[cur]|
    requires !Less(Finite(s.g[cur] + q.G.adj[cur][n].km), GetKm(s.g, q.G.adj[cur][n].to))
    ensures MidRelax(q, s, closed, trail, cur, n + 1)
  {
    assert GoodArc(q.G.node, q.d, cur, q.G.adj[cur][n]);
    assert RelaxedArcs(q, s, cur, n);
    assert RelaxedArcs(q, s, cur, n + 1);
  }

  lemma RelaxedInFull(q: Query, s: Search, closed: seq<int>, trail: map<int, seq<int>>, cur: int)
    requires cur in q.G.adj && MidRelax(q, s, closed, trail, cur, |q.G.adj[cur]|)
    ensures AtLoopHead(q, s, closed, trail, s.f[cur])
  {
  }

  lemma InitialState(q: Query)
    requires ValidQuery(q) && q.start != q.goal
    ensures AtLoopHead(q, Search(map[q.start := 0.0], map[q.start := H(q, q.start)], map[], [q.start]),
                    [], map[q.start := [q.start]], H(q, q.start))
  {
    var s := Search(map[q.start := 0.0], map[q.start := H(q, q.start)], map[], [q.start]);
    assert Elements(s.open) == {q.start};
    assert Elements<int>([]) == {};
    assert Cost(q.G, q.d, [q.start]) == 0.0;
  }

  // ---- the program ----

  // The record of a run: the popped nodes with their g values, in order.
  ghost predicate ExpansionLog(q: Query, log: seq<(int, real)>) {
    && (forall i, j :: 0 <= i < j < |log| ==> log[i].0 != log[j].0)
    && (forall i :: 0 <= i < |log| ==> log[i].0 in q.G.node && RoadDistance(q.G, q.d, q.start, log[i].0, log[i].1))
    && (forall i, j :: 0 <= i < j < |log| ==> log[i].1 + H(q, log[i].0) <= log[j].1 + H(q, log[j].0))
  }

  ghost function Popped(log: seq<(int, real)>): seq<int> {
    seq(|log|, i requires 0 <= i < |log| => log[i].0)
  }

  ghost predicate OptimalRoute(G: RoadGraph, d: Distance, s: int, t: int, path: seq<int>, km: real) {
    IsWalk(G, path, s, t) && Distinct(path) && Cost(G, d, path) == km && Minimal(G, d, s, t, km)
  }

  method Scan(f: map<int, real>, open: seq<int>) returns (cur: int)
    requires open != [] && forall v :: v in open ==> v in f
    ensures cur in open && forall v :: v in open ==> f[cur] <= f[v]
  {
    var best: Option<int> := None;
    var curF := Infinity;
    for k := 0 to |open|
      invariant best.None? ==> k == 0 && curF == Infinity
      invariant forall v :: v in open ==> v in f
      invariant best.Some? ==> best.value in open && best.value in f && curF == Finite(f[best.value])
      invariant best.Some? ==> forall v :: v in open[..k] ==> v in f && f[best.value] <= f[v]
    {
      var id := open[k];
      var fi := GetKm(f, id);
      if Less(fi, curF) {
        curF := fi;
        best := Some(id);
      }
    }
    assert open[..|open|] == open;
    return best.value;
  }

  method Reconstruct(goal: int, cameFrom: map<int, int>, ghost q: Query, ghost s: Search, ghost closed: seq<int>,
                     ghost trail: map<int, seq<int>>)
    returns (path: seq<int>)
    requires Trails(q, s, closed, trail) && s.cameFrom == cameFrom && goal in trail
    ensures path == trail[goal]
  {
    path := [goal];
    assert TrailTo(q, s, closed, trail, goal);
    while path[0] in cameFrom
      invariant path != [] && path[0] in trail
      invariant trail[path[0]] + path[1..] == trail[goal]
      decreases |trail[path[0]]|
    {
      assert TrailTo(q, s, closed, trail, path[0]);
      ghost var rest := path[1..];
      path := [cameFrom[path[0]]] + path;
      assert path[1..] == [path[1]] + rest;
    }
    assert TrailTo(q, s, closed, trail, path[0]);
  }

  lemma ArcFacts(q: Query, s: Search, closed: seq<int>, trail: map<int, seq<int>>, cur: int, n: nat)
    requires ValidQuery(q) && cur in q.G.adj && n < |q.G.adj[cur]| && MidRelax(q, s, closed, trail, cur, n)
    ensures GoodArc(q.G.node, q.d, cur, q.G.adj[cur][n]) && cur in s.g && cur in trail
  {
    assert cur in Elements(closed);
  }

  // The inner loop over the arcs of the node just popped.
  method RelaxArcs(ghost q: Query, G: RoadGraph, d: Distance, goalPos: Coord, cur: int,
                   g0: map<int, real>, f0: map<int, real>, cameFrom0: map<int, int>, open0: seq<int>,
                   ghost closed: seq<int>, ghost trail0: map<int, seq<int>>)
    returns (g: map<int, real>, f: map<int, real>, cameFrom: map<int, int>, open: seq<int>,
             ghost trail: map<int, seq<int>>)
    requires ValidQuery(q) && G == q.G && d == q.d && goalPos == G.node[q.goal].pos
    requires MidRelax(q, Search(g0, f0, cameFrom0, open0), closed, trail0, cur, 0) && cur in G.adj
    ensures MidRelax(q, Search(g, f, cameFrom, open), closed, trail, cur, |G.adj[cur]|)
  {
    g, f, cameFrom, open, trail := g0, f0, cameFrom0, open0, trail0;
    hide MidRelax;
    for i := 0 to |G.adj[cur]|
      invariant MidRelax(q, Search(g, f, cameFrom, open), closed, trail, cur, i)
    {
      ArcFacts(q, Search(g, f, cameFrom, open), closed, trail, cur, i);
      var nb, w := G.adj[cur][i].to, G.adj[cur][i].km;
      var tentative := g[cur] + w;
      if Less(Finite(tentative), GetKm(g, nb)) {
        ghost var s := Search(g, f, cameFrom, open);
        ImproveKeeps(q, s, closed, trail, cur, i, nb, tentative);
        cameFrom := cameFrom[nb := cur];
        g := g[nb := tentative];
        f := f[nb := tentative + d(G.node[nb].pos, goalPos)];
        open := Adding(open, nb);
        trail := trail[nb := trail[cur] + [nb]];
        assert Search(g, f, cameFrom, open) == Improve(q, s, cur, nb, tentative);
      } else {
        SkipKeeps(q, Search(g, f, cameFrom, open), closed, trail, cur, i);
      }
    }
  }

  method AStar(G: RoadGraph, d: Distance, start: int, goal: int) returns (r: RouteResult, ghost log: seq<(int, real)>)
    requires IsMetric(d) && Valid(G, d)
    ensures r.TypeError? <==> start != goal && (start !in G.node || goal !in G.node)
    ensures r.Route? ==> OptimalRoute(G, d, start, goal, r.path, r.costKm)
    ensures r.NoRoute? ==> !Reachable(G, start, goal)
    ensures r.NoRoute? ==> start != goal && forall v :: Reachable(G, start, v) ==> v in Popped(log)
    ensures r.Route? && start != goal ==> Explored(Query(G, d, start, goal), Popped(log), r.costKm)
    ensures !r.TypeError? ==> ExpansionLog(Query(G, d, start, goal), log) && |log| <= |G.node|
  {
    log := [];
    if start == goal {
      assert Cost(G, d, [start]) == 0.0;
      forall p | IsWalk(G, p, start, goal) ensures 0.0 <= Cost(G, d, p) {
        CostNonNegative(G, d, p);
      }
      return Route([start], 0.0), log;
    }
    if start !in G.node || goal !in G.node {
      return TypeError, log;
    }
    ghost var q := Query(G, d, start, goal);
    var goalPos := G.node[goal].pos;
    var g := map[start := 0.0];
    var f := map[start := d(G.node[start].pos, goalPos)];
    var cameFrom: map<int, int> := map[];
    var open := [start];
    ghost var closed: seq<int> := [];
    ghost var trail := map[start := [start]];
    ghost var floor := H(q, start);
    InitialState(q);
    while open != []
      invariant AtLoopHead(q, Search(g, f, cameFrom, open), closed, trail, floor)
      decreases |G.node| - |closed|
    {
      forall v | v in open ensures v in f { assert v in Elements(open); }
      var cur := Scan(f, open);
      assert cur in Elements(open);
      if cur == goal {
        ghost var s := Search(g, f, cameFrom, open);
        StartIsZero(q, s, closed, trail);
        PopIsExact(q, s, closed, goal);
        var path := Reconstruct(goal, cameFrom, q, s, closed, trail);
        assert TrailTo(q, s, closed, trail, goal);
        log := Log(s, closed);
        LogMeaning(q, s, closed, trail, floor);
        PopExplored(q, s, closed, trail, floor, goal);
        return Route(path, g[goal]), log;
      }
      PopKeeps(q, Search(g, f, cameFrom, open), closed, trail, floor, cur);
      open := Without(open, cur);
      closed := closed + [cur];
      g, f, cameFrom, open, trail := RelaxArcs(q, G, d, goalPos, cur, g, f, cameFrom, open, closed, trail);
      RelaxedInFull(q, Search(g, f, cameFrom, open), closed, trail, cur);
      floor := f[cur];
      ClosedBound(q, Search(g, f, cameFrom, open), closed);
    }
    ghost var s := Search(g, f, cameFrom, open);
    ExhaustedMeansAllPopped(q, s, closed, trail, floor);
    log := Log(s, closed);
    LogMeaning(q, s, closed, trail, floor);
    return NoRoute, log;
  }

  lemma ClosedBound(q: Query, s: Search, closed: seq<int>)
    requires Frontier(q, s, closed)
    ensures |closed| <= |q.G.node|
  {
    forall x | x in closed ensures x in q.G.node.Keys { assert x in Elements(closed); }
    DistinctBound(closed, q.G.node.Keys);
    assert |q.G.node.Keys| == |q.G.node|;
  }

  ghost function Log(s: Search, closed: seq<int>): seq<(int, real)> {
    seq(|closed|, i requires 0 <= i < |closed| => (closed[i], if closed[i] in s.g then s.g[closed[i]] else 0.0))
  }

  lemma LogMeaning(q: Query, s: Search, closed: seq<int>, trail: map<int, seq<int>>, floor: real)
    requires AtLoopHead(q, s, closed, trail, floor)
    ensures ExpansionLog(q, Log(s, closed)) && |Log(s, closed)| <= |q.G.node| && Popped(Log(s, closed)) == closed
  {
    ClosedBound(q, s, closed);
    forall i | 0 <= i < |closed| ensures RoadDistance(q.G, q.d, q.start, closed[i], s.g[closed[i]]) {
      assert closed[i] in Elements(closed);
      assert TrailTo(q, s, closed, trail, closed[i]);
    }
    assert forall i :: 0 <= i < |closed| ==> closed[i] in Elements(closed);
  }
}
