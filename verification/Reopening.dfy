// The search of aStar with any heuristic in place of the straight line. A popped node may
// then be improved and opened again, which the code allows, having no closed set. The search
// still ends; with a heuristic that is only admissible it is still optimal, and one that is
// off by some slack, as a rounded one is, costs at most that slack.
module Reopening {
  import opened Basics
  import opened RoadNetwork
  import opened Routing

  type Heuristic = int -> real

  // h overestimates no walk to the goal by more than the slack.
  ghost predicate AdmissibleWithin(G: RoadGraph, d: Distance, h: Heuristic, goal: int, slack: real) {
    forall v, p :: IsWalk(G, p, v, goal) ==> 0.0 <= h(v) <= Cost(G, d, p) + slack
  }

  ghost predicate Admissible(G: RoadGraph, d: Distance, h: Heuristic, goal: int) {
    AdmissibleWithin(G, d, h, goal, 0.0)
  }

  // c exceeds the length of no walk by more than the slack.
  ghost predicate MinimalWithin(G: RoadGraph, d: Distance, s: int, t: int, c: real, slack: real) {
    forall p :: IsWalk(G, p, s, t) ==> c <= Cost(G, d, p) + slack
  }

  // The code's own heuristic is one.
  lemma StraightLineAdmissible(G: RoadGraph, d: Distance, h: Heuristic, goal: int)
    requires IsMetric(d) && Valid(G, d) && goal in G.node
    requires forall v :: v in G.node ==> h(v) == d(G.node[v].pos, G.node[goal].pos)
    ensures Admissible(G, d, h, goal)
  {
    forall v, p | IsWalk(G, p, v, goal) ensures 0.0 <= h(v) <= Cost(G, d, p) {
      WalkNodes(G, d, p, v, goal);
      StraightIsShortest(G, d, p, v, goal);
    }
  }

  // ---- cameFrom as a forest ----

  // rank grows along every link, so following cameFrom back ends.
  ghost predicate Ranked(cameFrom: map<int, int>, rank: map<int, nat>) {
    forall v :: v in cameFrom ==> v in rank && cameFrom[v] in rank && rank[cameFrom[v]] < rank[v]
  }

  // The nodes from the root to v.
  ghost function Chain(cameFrom: map<int, int>, rank: map<int, nat>, v: int): seq<int>
    requires Ranked(cameFrom, rank)
    decreases if v in rank then rank[v] else 0
  {
    if v in cameFrom then Chain(cameFrom, rank, cameFrom[v]) + [v] else [v]
  }

  ghost predicate Below(cameFrom: map<int, int>, rank: map<int, nat>, v: int, a: int)
    requires Ranked(cameFrom, rank)
    decreases if v in rank then rank[v] else 0
  {
    v == a || (v in cameFrom && Below(cameFrom, rank, cameFrom[v], a))
  }

  lemma {:induction false} ChainRanks(cameFrom: map<int, int>, rank: map<int, nat>, v: int)
    requires Ranked(cameFrom, rank) && v in rank
    ensures Distinct(Chain(cameFrom, rank, v))
    ensures forall x :: x in Chain(cameFrom, rank, v) ==> x in rank && rank[x] <= rank[v]
    decreases rank[v]
  {
    if v in cameFrom {
      ChainRanks(cameFrom, rank, cameFrom[v]);
      DistinctAppend(Chain(cameFrom, rank, cameFrom[v]), v);
    }
  }

  // The ranks after v has been linked to u: everything below v moves up past u.
  ghost function Lifted(cameFrom: map<int, int>, rank: map<int, nat>, u: int, v: int): map<int, nat>
    requires Ranked(cameFrom, rank) && u in rank
  {
    map x | x in rank.Keys + {v} ::
      (if x in rank then rank[x] else 0) + if Below(cameFrom, rank, x, v) then rank[u] + 1 else 0
  }

  lemma LinkRanked(cameFrom: map<int, int>, rank: map<int, nat>, u: int, v: int)
    requires Ranked(cameFrom, rank) && u in rank && !Below(cameFrom, rank, u, v)
    ensures Ranked(cameFrom[v := u], Lifted(cameFrom, rank, u, v))
  {
  }

  // ---- the invariant ----
  // `walk[v]` is the walk whose length g[v] records; the chain of v may by now be shorter.

  datatype Ghosts = Ghosts(walk: map<int, seq<int>>, rank: map<int, nat>)

  ghost predicate Bounds(q: Query, h: Heuristic, s: Search) {
    && s.g.Keys == s.f.Keys && s.g.Keys <= q.G.node.Keys && q.start in s.g
    && (forall v :: v in s.open ==> v in s.g)
    && (forall v :: v in s.g ==> s.f[v] == s.g[v] + h(v))
    && (q.goal in s.g ==> q.goal in s.open)
  }

  ghost predicate Walked(q: Query, g: map<int, real>, walk: map<int, seq<int>>) {
    walk.Keys == g.Keys && forall v :: v in g ==> WalkedTo(q, g, walk[v], v)
  }

  // p is a simple walk of length g[v], and no node of it is recorded as farther than along p.
  ghost predicate WalkedTo(q: Query, g: map<int, real>, p: seq<int>, v: int)
    requires v in g
  {
    && IsWalk(q.G, p, q.start, v) && Distinct(p) && Cost(q.G, q.d, p) == g[v]
    && forall i :: 0 <= i < |p| ==> p[i] in g && g[p[i]] <= Cost(q.G, q.d, p[..i + 1])
  }

  ghost predicate Linked(q: Query, g: map<int, real>, cameFrom: map<int, int>, rank: map<int, nat>) {
    && rank.Keys == g.Keys && cameFrom.Keys == g.Keys - {q.start}
    && Ranked(cameFrom, rank)
    && forall v :: v in cameFrom ==> cameFrom[v] in g && Edge(q.G, cameFrom[v], v)
                                     && g[cameFrom[v]] + Straight(q.G, q.d, cameFrom[v], v) <= g[v]
  }

  // Every known node that is not open has been relaxed in full, but of `cur` only n arcs.
  ghost predicate Settled(q: Query, s: Search, cur: Option<int>, n: nat) {
    forall u :: u in s.g && u !in s.open ==>
      u in q.G.adj && RelaxedArcs(q, s, u, if cur == Some(u) then n else |q.G.adj[u]|)
  }

  ghost predicate Inv(q: Query, h: Heuristic, s: Search, x: Ghosts, cur: Option<int>, n: nat) {
    && Bounds(q, h, s)
    && Walked(q, s.g, x.walk)
    && Linked(q, s.g, s.cameFrom, x.rank)
    && Settled(q, s, cur, n)
  }

  // ---- what the invariant gives ----

  lemma PrefixCost(q: Query, p: seq<int>, i: nat)
    requires IsMetric(q.d) && i < |p|
    ensures 0.0 <= Cost(q.G, q.d, p[..i + 1]) <= Cost(q.G, q.d, p)
  {
    CostSplit(q.G, q.d, p, i);
    CostNonNegative(q.G, q.d, p[i..]);
    CostNonNegative(q.G, q.d, p[..i + 1]);
  }

  lemma GNonNegative(q: Query, g: map<int, real>, walk: map<int, seq<int>>, v: int)
    requires IsMetric(q.d) && Walked(q, g, walk) && v in g
    ensures g[v] >= 0.0
  {
    assert WalkedTo(q, g, walk[v], v);
    CostNonNegative(q.G, q.d, walk[v]);
  }

  lemma StartStaysZero(q: Query, g: map<int, real>, walk: map<int, seq<int>>)
    requires IsMetric(q.d) && Walked(q, g, walk) && q.start in g
    ensures g[q.start] == 0.0
  {
    assert WalkedTo(q, g, walk[q.start], q.start);
    var p := walk[q.start];
    assert p[0] == p[|p| - 1];
    assert |p| == 1;
  }

  // Nodes above v are no farther than v.
  lemma {:induction false} AboveIsNearer(q: Query, g: map<int, real>, cameFrom: map<int, int>, rank: map<int, nat>,
                                         v: int, a: int)
    requires IsMetric(q.d) && Linked(q, g, cameFrom, rank) && v in g && Below(cameFrom, rank, v, a)
    ensures a in g && g[a] <= g[v]
    decreases rank[v]
  {
    if v != a {
      AboveIsNearer(q, g, cameFrom, rank, cameFrom[v], a);
    }
  }

  // The chain of v is a simple walk no longer than g[v].
  lemma {:induction false} ChainIsWalk(q: Query, g: map<int, real>, cameFrom: map<int, int>, rank: map<int, nat>,
                                       v: int)
    requires Linked(q, g, cameFrom, rank) && v in g && q.start in g && g[q.start] >= 0.0
    ensures var p := Chain(cameFrom, rank, v); IsWalk(q.G, p, q.start, v) && Distinct(p) && Cost(q.G, q.d, p) <= g[v]
    decreases rank[v]
  {
    ChainRanks(cameFrom, rank, v);
    if v in cameFrom {
      ChainIsWalk(q, g, cameFrom, rank, cameFrom[v]);
      hide Distinct;
      WalkExtend(q.G, q.d, Chain(cameFrom, rank, cameFrom[v]), q.start, cameFrom[v], v);
    }
  }

  // Along any walk, up to the first open node, g bounds the length.
  lemma {:induction false} ReachesOpen(q: Query, h: Heuristic, s: Search, p: seq<int>, i: nat)
    requires Bounds(q, h, s) && Settled(q, s, None, 0) && s.g[q.start] <= 0.0
    requires i < |p| && p[0] == q.start && forall k :: 0 <= k < |p| - 1 ==> Edge(q.G, p[k], p[k + 1])
    requires forall k :: 0 <= k < i ==> p[k] !in s.open
    ensures p[i] in s.g && s.g[p[i]] <= Cost(q.G, q.d, p[..i + 1])
  {
    if i > 0 {
      ReachesOpen(q, h, s, p, i - 1);
      var u, v := p[i - 1], p[i];
      assert Edge(q.G, u, v);
      var k :| 0 <= k < |q.G.adj[u]| && q.G.adj[u][k].to == v;
      assert RelaxedArcs(q, s, u, |q.G.adj[u]|);
      assert p[..i + 1][..i] == p[..i];
    }
  }

  // The first place where a walk meets an open node.
  ghost function FirstOpen(open: seq<int>, p: seq<int>): (i: nat)
    requires exists k :: 0 <= k < |p| && p[k] in open
    ensures i < |p| && p[i] in open && forall k :: 0 <= k < i ==> p[k] !in open
  {
    if p[0] in open then 0
    else
      assert exists k :: 0 <= k < |p[1..]| && p[1..][k] in open by {
        var k :| 0 <= k < |p| && p[k] in open;
        assert p[1..][k - 1] == p[k];
      }
      1 + FirstOpen(open, p[1..])
  }

  // Optimality without consistency: if the goal has least f among the open nodes, no walk to
  // it is shorter than g says by more than the slack.
  lemma GoalIsMinimal(q: Query, h: Heuristic, s: Search, slack: real)
    requires IsMetric(q.d) && Bounds(q, h, s) && Settled(q, s, None, 0) && s.g[q.start] <= 0.0
    requires AdmissibleWithin(q.G, q.d, h, q.goal, slack)
    requires q.goal in s.open && forall v :: v in s.open ==> s.f[q.goal] <= s.f[v]
    ensures MinimalWithin(q.G, q.d, q.start, q.goal, s.g[q.goal], slack)
  {
    assert IsWalk(q.G, [q.goal], q.goal, q.goal);
    forall p | IsWalk(q.G, p, q.start, q.goal) ensures s.g[q.goal] <= Cost(q.G, q.d, p) + slack {
      assert p[|p| - 1] in s.open;
      var i := FirstOpen(s.open, p);
      ReachesOpen(q, h, s, p, i);
      CostSplit(q.G, q.d, p, i);
      WalkSplit(q.G, p, q.start, q.goal, i);
    }
  }

  // With nothing open every reachable node is known; the goal is not, so it is unreachable.
  lemma NothingOpen(q: Query, h: Heuristic, s: Search)
    requires Bounds(q, h, s) && Settled(q, s, None, 0) && s.g[q.start] <= 0.0 && s.open == []
    ensures !Reachable(q.G, q.start, q.goal)
  {
    forall p | IsWalk(q.G, p, q.start, q.goal) ensures false {
      ReachesOpen(q, h, s, p, |p| - 1);
    }
  }

  // ---- one arc ----

  // What the body of the inner loop does when the arc improves its end.
  ghost function Improved(h: Heuristic, s: Search, cur: int, nb: int, t: real): Search {
    Search(s.g[nb := t], s.f[nb := t + h(nb)], s.cameFrom[nb := cur], Adding(s.open, nb))
  }

  // An improved node is not on the walk that improves it.
  lemma NotOnWalk(q: Query, g: map<int, real>, p: seq<int>, cur: int, nb: int, t: real)
    requires IsMetric(q.d) && cur in g && WalkedTo(q, g, p, cur) && t >= g[cur] && (nb in g ==> t < g[nb])
    ensures nb !in p
  {
    forall i | 0 <= i < |p| ensures p[i] != nb {
      PrefixCost(q, p, i);
    }
  }

  lemma PrefixesKept(q: Query, g: map<int, real>, p: seq<int>, nb: int, t: real)
    requires nb !in p && Cost(q.G, q.d, p + [nb]) == t
    requires forall i :: 0 <= i < |p| ==> p[i] in g && g[p[i]] <= Cost(q.G, q.d, p[..i + 1])
    ensures forall i :: 0 <= i <= |p| ==>
              (p + [nb])[i] in g[nb := t] && g[nb := t][(p + [nb])[i]] <= Cost(q.G, q.d, (p + [nb])[..i + 1])
  {
    forall i | 0 <= i <= |p|
      ensures (p + [nb])[i] in g[nb := t] && g[nb := t][(p + [nb])[i]] <= Cost(q.G, q.d, (p + [nb])[..i + 1])
    {
      if i < |p| {
        assert (p + [nb])[..i + 1] == p[..i + 1];
      } else {
        assert (p + [nb])[..i + 1] == p + [nb];
      }
    }
  }

  lemma ImprovedWalk(q: Query, g: map<int, real>, walk: map<int, seq<int>>, cur: int, nb: int, t: real)
    requires IsMetric(q.d) && Walked(q, g, walk) && cur in g && Edge(q.G, cur, nb)
    requires t == g[cur] + Straight(q.G, q.d, cur, nb) && (nb in g ==> t < g[nb])
    ensures WalkedTo(q, g[nb := t], walk[cur] + [nb], nb)
  {
    assert WalkedTo(q, g, walk[cur], cur);
    NotOnWalk(q, g, walk[cur], cur, nb, t);
    DistinctAppend(walk[cur], nb);
    WalkExtend(q.G, q.d, walk[cur], q.start, cur, nb);
    hide Distinct, Cost, IsWalk, Straight, IsMetric, Walked;
    PrefixesKept(q, g, walk[cur], nb, t);
  }

  lemma ImprovedWalked(q: Query, g: map<int, real>, walk: map<int, seq<int>>, cur: int, nb: int, t: real)
    requires IsMetric(q.d) && Walked(q, g, walk) && cur in g && Edge(q.G, cur, nb)
    requires t == g[cur] + Straight(q.G, q.d, cur, nb) && (nb in g ==> t < g[nb])
    ensures Walked(q, g[nb := t], walk[nb := walk[cur] + [nb]])
  {
    ImprovedWalk(q, g, walk, cur, nb, t);
    forall v | v in g && v != nb ensures WalkedTo(q, g[nb := t], walk[v], v) {
      assert WalkedTo(q, g, walk[v], v);
    }
  }

  lemma ImprovedLinked(q: Query, g: map<int, real>, cameFrom: map<int, int>, rank: map<int, nat>, cur: int, nb: int,
                       t: real)
    requires IsMetric(q.d) && Linked(q, g, cameFrom, rank) && cur in g && Edge(q.G, cur, nb) && nb != q.start
    requires t == g[cur] + Straight(q.G, q.d, cur, nb) && (nb in g ==> t < g[nb])
    ensures Linked(q, g[nb := t], cameFrom[nb := cur], Lifted(cameFrom, rank, cur, nb))
  {
    if Below(cameFrom, rank, cur, nb) {
      AboveIsNearer(q, g, cameFrom, rank, cur, nb);
    }
    LinkRanked(cameFrom, rank, cur, nb);
    hide Lifted, Ranked, Below;
    LiftedKeys(cameFrom, rank, cur, nb);
  }

  lemma LiftedKeys(cameFrom: map<int, int>, rank: map<int, nat>, u: int, v: int)
    requires Ranked(cameFrom, rank) && u in rank
    ensures Lifted(cameFrom, rank, u, v).Keys == rank.Keys + {v}
  {
  }

  lemma ImprovedSettled(q: Query, h: Heuristic, s: Search, cur: int, n: nat, nb: int, t: real)
    requires Settled(q, s, Some(cur), n) && cur in s.g && cur !in s.open && cur in q.G.adj
    requires n < |q.G.adj[cur]| && nb == q.G.adj[cur][n].to && nb != cur
    requires t == s.g[cur] + Straight(q.G, q.d, cur, nb) && (nb in s.g ==> t < s.g[nb])
    ensures Settled(q, Improved(h, s, cur, nb, t), Some(cur), n + 1)
  {
    var s' := Improved(h, s, cur, nb, t);
    forall u | u in s'.g && u !in s'.open
      ensures u in q.G.adj && RelaxedArcs(q, s', u, if u == cur then n + 1 else |q.G.adj[u]|)
    {
      assert u != nb && u in s.g && u !in s.open;
      assert RelaxedArcs(q, s, u, if u == cur then n else |q.G.adj[u]|);
    }
  }

  lemma ImprovedBounds(q: Query, h: Heuristic, s: Search, cur: int, nb: int, t: real)
    requires Bounds(q, h, s) && nb in q.G.node
    ensures Bounds(q, h, Improved(h, s, cur, nb, t))
  {
  }

  // What an arc out of the popped node offers, if it improves its end.
  lemma Improvement(q: Query, g: map<int, real>, walk: map<int, seq<int>>, cur: int, n: nat)
    requires ValidQuery(q) && Walked(q, g, walk) && q.start in g && cur in g && cur in q.G.adj && n < |q.G.adj[cur]|
    requires Less(Finite(g[cur] + q.G.adj[cur][n].km), GetKm(g, q.G.adj[cur][n].to))
    ensures var nb, t := q.G.adj[cur][n].to, g[cur] + q.G.adj[cur][n].km;
            && nb in q.G.node && Edge(q.G, cur, nb) && nb != cur && nb != q.start
            && t == g[cur] + Straight(q.G, q.d, cur, nb) && (nb in g ==> t < g[nb])
  {
    assert GoodArc(q.G.node, q.d, cur, q.G.adj[cur][n]);
    GNonNegative(q, g, walk, cur);
    StartStaysZero(q, g, walk);
  }

  // The arc improves its end.
  lemma ImproveKeeps(q: Query, h: Heuristic, s: Search, x: Ghosts, cur: int, n: nat, nb: int, t: real)
    requires ValidQuery(q) && Inv(q, h, s, x, Some(cur), n) && cur in s.g && cur !in s.open && cur in q.G.adj
    requires n < |q.G.adj[cur]|
    requires nb == q.G.adj[cur][n].to && t == s.g[cur] + q.G.adj[cur][n].km && Less(Finite(t), GetKm(s.g, nb))
    ensures Inv(q, h, Improved(h, s, cur, nb, t), Linking(s, x, cur, nb), Some(cur), n + 1)
    ensures nb != cur
  {
    assert q.start in s.g;
    hide Walked, Linked, Settled, Bounds, Straight, Edge, RoadNetwork.Valid;
    Improvement(q, s.g, x.walk, cur, n);
    ImprovedBounds(q, h, s, cur, nb, t);
    ImprovedWalked(q, s.g, x.walk, cur, nb, t);
    ImprovedLinked(q, s.g, s.cameFrom, x.rank, cur, nb, t);
    ImprovedSettled(q, h, s, cur, n, nb, t);
  }

  ghost function Linking(s: Search, x: Ghosts, cur: int, nb: int): Ghosts
    requires cur in x.walk && cur in x.rank && Ranked(s.cameFrom, x.rank)
  {
    Ghosts(x.walk[nb := x.walk[cur] + [nb]], Lifted(s.cameFrom, x.rank, cur, nb))
  }

  // The arc does not improve its end.
  lemma SkipKeeps(q: Query, h: Heuristic, s: Search, x: Ghosts, cur: int, n: nat)
    requires ValidQuery(q) && Inv(q, h, s, x, Some(cur), n) && cur in s.g && cur !in s.open && cur in q.G.adj
    requires n < |q.G.adj[cur]|
    requires !Less(Finite(s.g[cur] + q.G.adj[cur][n].km), GetKm(s.g, q.G.adj[cur][n].to))
    ensures Inv(q, h, s, x, Some(cur), n + 1)
  {
    hide Walked, Linked, Bounds;
    assert GoodArc(q.G.node, q.d, cur, q.G.adj[cur][n]);
    SkippedSettled(q, s, cur, n);
  }

  lemma SkippedSettled(q: Query, s: Search, cur: int, n: nat)
    requires Settled(q, s, Some(cur), n) && cur in s.g && cur !in s.open && cur in q.G.adj && n < |q.G.adj[cur]|
    requires Closer(q, s, cur, q.G.adj[cur][n].to)
    ensures Settled(q, s, Some(cur), n + 1)
  {
    forall u | u in s.g && u !in s.open
      ensures u in q.G.adj && RelaxedArcs(q, s, u, if u == cur then n + 1 else |q.G.adj[u]|)
    {
      assert RelaxedArcs(q, s, u, if u == cur then n else |q.G.adj[u]|);
    }
  }

  // ---- the search ends ----

  // All sequences of at most n elements of a set.
  ghost function Sequences(xs: set<int>, n: nat): set<seq<int>> {
    if n == 0 then {[]}
    else Sequences(xs, n - 1) + set p, x | p in Sequences(xs, n - 1) && x in xs :: p + [x]
  }

  lemma {:induction false} SequenceListed(xs: set<int>, p: seq<int>, n: nat)
    requires |p| <= n && forall x :: x in p ==> x in xs
    ensures p in Sequences(xs, n)
  {
    if |p| < n {
      SequenceListed(xs, p, n - 1);
    } else if n > 0 {
      var front, x := p[..n - 1], p[n - 1];
      SequenceListed(xs, front, n - 1);
      assert front in Sequences(xs, n - 1) && x in xs && p == front + [x];
    }
  }

  // p would still improve the node it ends at.
  ghost predicate Useful(q: Query, g: map<int, real>, p: seq<int>) {
    p != [] && (p[|p| - 1] in g ==> Cost(q.G, q.d, p) < g[p[|p| - 1]])
  }

  // Each improvement uses up a simple walk, and there are finitely many.
  ghost function Unused(q: Query, g: map<int, real>): set<seq<int>> {
    set p | p in Sequences(q.G.node.Keys, |q.G.node|) && Useful(q, g, p)
  }

  lemma ImprovementUsesWalk(q: Query, g: map<int, real>, nb: int, t: real, p: seq<int>)
    requires g.Keys <= q.G.node.Keys && nb in q.G.node && (nb in g ==> t < g[nb])
    requires p != [] && p[|p| - 1] == nb && Distinct(p) && Cost(q.G, q.d, p) == t && forall x :: x in p ==>
        x in q.G.node
    ensures |Unused(q, g[nb := t])| < |Unused(q, g)|
  {
    DistinctBound(p, q.G.node.Keys);
    assert |q.G.node.Keys| == |q.G.node|;
    SequenceListed(q.G.node.Keys, p, |q.G.node|);
    assert p in Unused(q, g) && p !in Unused(q, g[nb := t]);
    hide Sequences;
    assert Unused(q, g[nb := t]) <= Unused(q, g) - {p};
    Fewer(Unused(q, g[nb := t]), Unused(q, g), p);
  }

  lemma Fewer(a: set<seq<int>>, b: set<seq<int>>, p: seq<int>)
    requires a <= b - {p} && p in b
    ensures |a| < |b|
  {
    Subset(a, b - {p});
  }

  lemma {:induction false} Subset(a: set<seq<int>>, b: set<seq<int>>)
    requires a <= b
    ensures |a| <= |b|
  {
    if a != {} {
      var p :| p in a;
      Subset(a - {p}, b - {p});
    }
  }

  lemma WalkedInside(q: Query, g: map<int, real>, p: seq<int>, v: int)
    requires v in g && WalkedTo(q, g, p, v) && g.Keys <= q.G.node.Keys
    ensures p != [] && p[|p| - 1] == v && Distinct(p) && Cost(q.G, q.d, p) == g[v] && forall x :: x in p ==>
        x in q.G.node
  {
  }

  lemma ImproveEnds(q: Query, h: Heuristic, s: Search, x: Ghosts, cur: int, n: nat, nb: int, t: real)
    requires ValidQuery(q) && Inv(q, h, s, x, Some(cur), n) && cur in s.g && cur !in s.open && cur in q.G.adj
    requires n < |q.G.adj[cur]|
    requires nb == q.G.adj[cur][n].to && t == s.g[cur] + q.G.adj[cur][n].km && Less(Finite(t), GetKm(s.g, nb))
    ensures |Unused(q, s.g[nb := t])| < |Unused(q, s.g)|
  {
    assert q.start in s.g && s.g.Keys <= q.G.node.Keys;
    hide Linked, Settled, Bounds, Unused, Straight, RoadNetwork.Valid, Cost, Edge, Walked, WalkedTo, Distinct;
    Improvement(q, s.g, x.walk, cur, n);
    ImprovedWalk(q, s.g, x.walk, cur, nb, t);
    WalkedInside(q, s.g[nb := t], x.walk[cur] + [nb], nb);
    ImprovementUsesWalk(q, s.g, nb, t, x.walk[cur] + [nb]);
  }

  lemma {:induction false} WithoutShorter(s: seq<int>, x: int)
    requires x in s
    ensures |Without(s, x)| < |s|
  {
    if s[0] == x {
      WithoutNoLonger(s[1..], x);
    } else {
      WithoutShorter(s[1..], x);
    }
  }

  lemma {:induction false} WithoutNoLonger(s: seq<int>, x: int)
    ensures |Without(s, x)| <= |s|
  {
    if s != [] {
      WithoutNoLonger(s[1..], x);
    }
  }

  // ---- the program ----

  lemma PopKeeps(q: Query, h: Heuristic, s: Search, x: Ghosts, cur: int)
    requires Inv(q, h, s, x, None, 0) && cur in s.open && cur != q.goal && q.G.adj.Keys == q.G.node.Keys
    ensures Inv(q, h, s.(open := Without(s.open, cur)), x, Some(cur), 0)
  {
    hide Walked, Linked;
    PoppedSettled(q, s, cur);
  }

  lemma PoppedSettled(q: Query, s: Search, cur: int)
    requires Settled(q, s, None, 0) && cur in s.g && cur in q.G.adj
    ensures Settled(q, s.(open := Without(s.open, cur)), Some(cur), 0)
  {
    var s' := s.(open := Without(s.open, cur));
    forall u | u in s'.g && u !in s'.open
      ensures u in q.G.adj && RelaxedArcs(q, s', u, if u == cur then 0 else |q.G.adj[u]|)
    {
      if u != cur {
        assert RelaxedArcs(q, s, u, |q.G.adj[u]|);
      }
    }
  }

  lemma RelaxedInFull(q: Query, h: Heuristic, s: Search, x: Ghosts, cur: int)
    requires cur in q.G.adj && Inv(q, h, s, x, Some(cur), |q.G.adj[cur]|)
    ensures Inv(q, h, s, x, None, 0)
  {
    hide Walked, Linked;
  }

  lemma InitialInv(q: Query, h: Heuristic)
    requires ValidQuery(q) && q.start != q.goal
    ensures Inv(q, h, Search(map[q.start := 0.0], map[q.start := h(q.start)], map[], [q.start]),
                Ghosts(map[q.start := [q.start]], map[q.start := 0]), None, 0)
  {
    assert [q.start][..1] == [q.start];
    assert Cost(q.G, q.d, [q.start]) == 0.0;
  }

  // The inner loop. Either it opens nothing, or it uses up a walk.
  method RelaxArcs(ghost q: Query, G: RoadGraph, h: Heuristic, cur: int,
                   g0: map<int, real>, f0: map<int, real>, cameFrom0: map<int, int>, open0: seq<int>, ghost x0: Ghosts)
    returns (g: map<int, real>, f: map<int, real>, cameFrom: map<int, int>, open: seq<int>, ghost x: Ghosts)
    requires ValidQuery(q) && G == q.G && cur in G.adj && cur in g0 && cur !in open0
    requires Inv(q, h, Search(g0, f0, cameFrom0, open0), x0, Some(cur), 0)
    ensures Inv(q, h, Search(g, f, cameFrom, open), x, Some(cur), |G.adj[cur]|)
    ensures |Unused(q, g)| < |Unused(q, g0)| || (|Unused(q, g)| == |Unused(q, g0)| && open == open0)
  {
    g, f, cameFrom, open, x := g0, f0, cameFrom0, open0, x0;
    hide Inv, Unused, ValidQuery;
    for i := 0 to |G.adj[cur]|
      invariant Inv(q, h, Search(g, f, cameFrom, open), x, Some(cur), i) && cur in g && cur !in open
      invariant |Unused(q, g)| < |Unused(q, g0)| || (|Unused(q, g)| == |Unused(q, g0)| && open == open0)
    {
      ghost var s := Search(g, f, cameFrom, open);
      var nb, w := G.adj[cur][i].to, G.adj[cur][i].km;
      var tentative := g[cur] + w;
      if Less(Finite(tentative), GetKm(g, nb)) {
        ImproveKeeps(q, h, s, x, cur, i, nb, tentative);
        ImproveEnds(q, h, s, x, cur, i, nb, tentative);
        LinkingDefined(q, h, s, x, cur, i);
        x := Linking(s, x, cur, nb);
        cameFrom := cameFrom[nb := cur];
        g := g[nb := tentative];
        f := f[nb := tentative + h(nb)];
        open := Adding(open, nb);
        assert Search(g, f, cameFrom, open) == Improved(h, s, cur, nb, tentative);
      } else {
        SkipKeeps(q, h, s, x, cur, i);
      }
    }
  }

  lemma LinkingDefined(q: Query, h: Heuristic, s: Search, x: Ghosts, cur: int, n: nat)
    requires Inv(q, h, s, x, Some(cur), n) && cur in s.g
    ensures cur in x.walk && cur in x.rank && Ranked(s.cameFrom, x.rank)
  {
  }

  // Following cameFrom back from the goal.
  method Unwind(goal: int, cameFrom: map<int, int>, ghost rank: map<int, nat>) returns (path: seq<int>)
    requires Ranked(cameFrom, rank) && goal in rank
    ensures path == Chain(cameFrom, rank, goal)
  {
    path := [goal];
    while path[0] in cameFrom
      invariant path != [] && path[0] in rank
      invariant Chain(cameFrom, rank, path[0]) + path[1..] == Chain(cameFrom, rank, goal)
      decreases rank[path[0]]
    {
      ghost var rest := path[1..];
      path := [cameFrom[path[0]]] + path;
      assert path[1..] == [path[1]] + rest;
    }
  }

  // The loops of aStar, heuristic given. Whatever the heuristic, the search ends, finds a
  // route exactly if there is one, and the route is a simple walk of roads no longer than the
  // cost returned. That cost exceeds the length of no walk by more than the heuristic's
  // slack; without slack the route is a shortest one, at exactly that cost.
  method AStarWith(G: RoadGraph, d: Distance, h: Heuristic, start: int, goal: int) returns (r: RouteResult)
    requires IsMetric(d) && Valid(G, d)
    ensures r.TypeError? <==> start != goal && (start !in G.node || goal !in G.node)
    ensures r.Route? ==> IsWalk(G, r.path, start, goal) && Distinct(r.path) && Cost(G, d, r.path) <= r.costKm
    ensures r.Route? ==> forall slack :: slack >= 0.0 && AdmissibleWithin(G, d, h, goal, slack) ==>
                                         MinimalWithin(G, d, start, goal, r.costKm, slack)
    ensures r.Route? && Admissible(G, d, h, goal) ==> OptimalRoute(G, d, start, goal, r.path, r.costKm)
    ensures r.NoRoute? ==> !Reachable(G, start, goal)
  {
    if start == goal {
      assert Cost(G, d, [start]) == 0.0;
      forall p | IsWalk(G, p, start, goal) ensures 0.0 <= Cost(G, d, p) {
        CostNonNegative(G, d, p);
      }
      return Route([start], 0.0);
    }
    if start !in G.node || goal !in G.node {
      return TypeError;
    }
    ghost var q := Query(G, d, start, goal);
    var g, f := map[start := 0.0], map[start := h(start)];
    var cameFrom: map<int, int> := map[];
    var open := [start];
    ghost var x := Ghosts(map[start := [start]], map[start := 0]);
    InitialInv(q, h);
    while open != []
      invariant Inv(q, h, Search(g, f, cameFrom, open), x, None, 0)
      decreases |Unused(q, g)|, |open|
    {
      var cur := Scan(f, open);
      if cur == goal {
        var path := Unwind(goal, cameFrom, x.rank);
        Found(q, h, Search(g, f, cameFrom, open), x);
        return Route(path, g[goal]);
      }
      PopKeeps(q, h, Search(g, f, cameFrom, open), x, cur);
      WithoutShorter(open, cur);
      open := Without(open, cur);
      g, f, cameFrom, open, x := RelaxArcs(q, G, h, cur, g, f, cameFrom, open, x);
      RelaxedInFull(q, h, Search(g, f, cameFrom, open), x, cur);
    }
    StartStaysZero(q, g, x.walk);
    NothingOpen(q, h, Search(g, f, cameFrom, open));
    return NoRoute;
  }

  lemma Found(q: Query, h: Heuristic, s: Search, x: Ghosts)
    requires ValidQuery(q) && Inv(q, h, s, x, None, 0)
    requires q.goal in s.open && forall v :: v in s.open ==> v in s.f && s.f[q.goal] <= s.f[v]
    ensures var p := Chain(s.cameFrom, x.rank, q.goal);
            && IsWalk(q.G, p, q.start, q.goal) && Distinct(p) && Cost(q.G, q.d, p) <= s.g[q.goal]
            && (Admissible(q.G, q.d, h, q.goal) ==> OptimalRoute(q.G, q.d, q.start, q.goal, p, s.g[q.goal]))
    ensures forall slack :: AdmissibleWithin(q.G, q.d, h, q.goal, slack) ==>
              MinimalWithin(q.G, q.d, q.start, q.goal, s.g[q.goal], slack)
  {
    StartStaysZero(q, s.g, x.walk);
    ChainIsWalk(q, s.g, s.cameFrom, x.rank, q.goal);
    forall slack | AdmissibleWithin(q.G, q.d, h, q.goal, slack)
      ensures MinimalWithin(q.G, q.d, q.start, q.goal, s.g[q.goal], slack)
    {
      GoalIsMinimal(q, h, s, slack);
    }
    assert Admissible(q.G, q.d, h, q.goal) ==> MinimalWithin(q.G, q.d, q.start, q.goal, s.g[q.goal], 0.0);
  }
}
