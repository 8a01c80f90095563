// selectVehicle: score every candidate by road distance plus penalties and keep the best.
module Selection {
  import opened Basics
  import opened RoadNetwork
  import opened Routing

  datatype VehicleState = Driving | Parked | Charging

  datatype Candidate = Candidate(vehicleId: string, vehicleType: string, seats: int, pos: Coord,
                                 batteryLevel: real, currentState: VehicleState)

  datatype Config = Config(lowBatteryPct: real, lowBatteryPenaltyKm: real,
                           midBatteryPct: real, midBatteryPenaltyKm: real,
                           chargingPenaltyKm: real, oversizeKmPerSeat: real)

  const DEFAULTS := Config(20.0, 5.0, 40.0, 2.0, 8.0, 0.25)

  datatype Choice = Choice(vehicleId: string, vehicleType: string, startNode: int, route: seq<int>, roadKm: real,
                           batteryPenaltyKm: real, sizePenaltyKm: real, score: real)

  // Threw: the TypeError that the search raises on an unknown pickup node.
  datatype SelectResult = Chosen(choice: Choice) | NoneReachable | Threw

  // Penalties are independent of one another, of the graph and of the other candidates.
  function BatteryPenalty(c: Candidate, cfg: Config): real {
    (if c.currentState == Charging then cfg.chargingPenaltyKm else 0.0) +
    (if c.batteryLevel < cfg.lowBatteryPct then cfg.lowBatteryPenaltyKm
     else if c.batteryLevel < cfg.midBatteryPct then cfg.midBatteryPenaltyKm
     else 0.0)
  }

  function SizePenalty(c: Candidate, partySize: int, cfg: Config): real {
    if c.seats > partySize then (c.seats - partySize) as real * cfg.oversizeKmPerSeat else 0.0
  }

  function Penalty(c: Candidate, partySize: int, cfg: Config): real {
    BatteryPenalty(c, cfg) + SizePenalty(c, partySize, cfg)
  }

  // s is a score that candidate c could be given: the length of some walk from its nearest
  // landmark to the pickup, plus its penalties. The true score is the least of these.
  ghost predicate Attainable(G: RoadGraph, d: Distance, pickup: int, partySize: int, cfg: Config, c: Candidate,
                             s: real)
  {
    exists n, p ::
      IsNearest(G, d, c.pos, n) && IsWalk(G, p, n, pickup) && s == Cost(G, d, p) + Penalty(c, partySize, cfg)
  }

  ghost predicate CanReach(G: RoadGraph, d: Distance, pickup: int, c: Candidate) {
    exists n :: IsNearest(G, d, c.pos, n) && Reachable(G, n, pickup)
  }

  // The choice is candidate i: its route is a shortest path from its nearest landmark.
  ghost predicate ChoiceOf(G: RoadGraph, d: Distance, pickup: int, partySize: int, cfg: Config, c: Candidate,
                           x: Choice)
  {
    && x.vehicleId == c.vehicleId && x.vehicleType == c.vehicleType
    && IsNearest(G, d, c.pos, x.startNode)
    && OptimalRoute(G, d, x.startNode, pickup, x.route, x.roadKm)
    && x.batteryPenaltyKm == BatteryPenalty(c, cfg)
    && x.sizePenaltyKm == SizePenalty(c, partySize, cfg)
    && x.score == x.roadKm + x.batteryPenaltyKm + x.sizePenaltyKm
  }

  // Candidate number i is the earliest of least true score.
  ghost predicate BestOf(G: RoadGraph, d: Distance, pickup: int, partySize: int, cfg: Config,
                         cs: seq<Candidate>, i: nat, x: Choice)
  {
    && i < |cs| && ChoiceOf(G, d, pickup, partySize, cfg, cs[i], x)
    && (forall j, s :: 0 <= j < |cs| && Attainable(G, d, pickup, partySize, cfg, cs[j], s) ==> x.score <= s)
    && (forall j, s :: 0 <= j < i && Attainable(G, d, pickup, partySize, cfg, cs[j], s) ==> x.score < s)
  }

  // Two nearest landmarks in the sense of nearestNode are the same landmark.
  lemma NearestUnique(G: RoadGraph, d: Distance, pos: Coord, m: int, n: int)
    requires IsNearest(G, d, pos, m) && IsNearest(G, d, pos, n)
    ensures m == n
  {
    var i :| 0 <= i < |G.order| && G.order[i] == m && d(pos, G.node[m].pos) == Off(G, d, pos, i)
             && (forall j :: 0 <= j < |G.order| ==> d(pos, G.node[m].pos) <= Off(G, d, pos, j))
             && (forall j :: 0 <= j < i ==> d(pos, G.node[m].pos) < Off(G, d, pos, j));
    var k :| 0 <= k < |G.order| && G.order[k] == n && d(pos, G.node[n].pos) == Off(G, d, pos, k)
             && (forall j :: 0 <= j < |G.order| ==> d(pos, G.node[n].pos) <= Off(G, d, pos, j))
             && (forall j :: 0 <= j < k ==> d(pos, G.node[n].pos) < Off(G, d, pos, j));
    assert Off(G, d, pos, i) == Off(G, d, pos, k);
  }

  // The penalties case by case, for any configuration: a battery below the low mark, one from
  // there to below the middle mark, a full one, charging on top of that, and unused seats.
  lemma PenaltiesByCase(c: Candidate, partySize: int, cfg: Config)
    ensures c.currentState != Charging && c.batteryLevel < cfg.lowBatteryPct ==>
              BatteryPenalty(c, cfg) == cfg.lowBatteryPenaltyKm
    ensures c.currentState != Charging && cfg.lowBatteryPct <= c.batteryLevel < cfg.midBatteryPct ==>
              BatteryPenalty(c, cfg) == cfg.midBatteryPenaltyKm
    ensures c.currentState != Charging && cfg.lowBatteryPct <= c.batteryLevel && cfg.midBatteryPct <= c.batteryLevel ==>
              BatteryPenalty(c, cfg) == 0.0
    ensures BatteryPenalty(c.(currentState := Charging), cfg) ==
            BatteryPenalty(c.(currentState := Parked), cfg) + cfg.chargingPenaltyKm
    ensures BatteryPenalty(c.(currentState := Driving), cfg) == BatteryPenalty(c.(currentState := Parked), cfg)
    ensures c.seats <= partySize ==> SizePenalty(c, partySize, cfg) == 0.0
    ensures c.seats > partySize ==>
              SizePenalty(c, partySize, cfg) == (c.seats - partySize) as real * cfg.oversizeKmPerSeat
    ensures Penalty(c, partySize, cfg) == BatteryPenalty(c, cfg) + SizePenalty(c, partySize, cfg)
  {
  }

  // A choice's score is its shortest road distance plus those penalties; with the default
  // configuration these are 5 km below 20%, 2 km below 40%, 8 km for charging and a quarter of
  // a km for each unused seat.
  lemma ChoiceByCase(G: RoadGraph, d: Distance, pickup: int, partySize: int, cfg: Config, c: Candidate, x: Choice)
    requires ChoiceOf(G, d, pickup, partySize, cfg, c, x)
    ensures x.score == x.roadKm + x.batteryPenaltyKm + x.sizePenaltyKm && Cost(G, d, x.route) == x.roadKm
    ensures var charging := if c.currentState == Charging then cfg.chargingPenaltyKm else 0.0;
            && (c.batteryLevel < cfg.lowBatteryPct ==> x.batteryPenaltyKm == charging + cfg.lowBatteryPenaltyKm)
            && (cfg.lowBatteryPct <= c.batteryLevel < cfg.midBatteryPct ==>
                  x.batteryPenaltyKm == charging + cfg.midBatteryPenaltyKm)
            && (cfg.lowBatteryPct <= c.batteryLevel && cfg.midBatteryPct <= c.batteryLevel ==>
                  x.batteryPenaltyKm == charging)
    ensures x.sizePenaltyKm == (if c.seats <= partySize then 0 else c.seats - partySize) as real * cfg.oversizeKmPerSeat
    ensures cfg == DEFAULTS ==>
              && x.batteryPenaltyKm ==
                 (if c.currentState == Charging then 8.0 else 0.0)
                 + (if c.batteryLevel < 20.0 then 5.0 else if c.batteryLevel < 40.0 then 2.0 else 0.0)
              && x.sizePenaltyKm == (if c.seats <= partySize then 0 else c.seats - partySize) as real * 0.25
  {
  }

  lemma ScoreIsLeast(G: RoadGraph, d: Distance, pickup: int, partySize: int, cfg: Config, c: Candidate, x: Choice,
                     s: real)
    requires ChoiceOf(G, d, pickup, partySize, cfg, c, x) && Attainable(G, d, pickup, partySize, cfg, c, s)
    ensures x.score <= s
  {
    var n, p :| IsNearest(G, d, c.pos, n) && IsWalk(G, p, n, pickup) && s == Cost(G, d, p) + Penalty(c, partySize, cfg);
    NearestUnique(G, d, c.pos, n, x.startNode);
  }

  // One turn of the loop: route and score a single candidate.
  method Score(c: Candidate, pickup: int, G: RoadGraph, d: Distance, partySize: int, cfg: Config)
    returns (r: SelectResult)
    requires IsMetric(d) && Valid(G, d)
    ensures r.Threw? <==> pickup !in G.node
    ensures r.NoneReachable? ==> !CanReach(G, d, pickup, c)
    ensures r.Chosen? ==> ChoiceOf(G, d, pickup, partySize, cfg, c, r.choice)
  {
    var nearest := NearestNode(G, d, c.pos);
    if nearest.None? {
      assert pickup !in Elements(G.order);
      return Threw;
    }
    hide OptimalRoute, IsNearest, Reachable, ExpansionLog, Explored, Valid, CanReach, BatteryPenalty, SizePenalty;
    var startNode := nearest.value;
    var path, log := AStar(G, d, startNode, pickup);
    if path.TypeError? {
      return Threw;
    }
    if path.NoRoute? {
      Unreached(G, d, pickup, c, startNode);
      return NoneReachable;
    }
    var x := Penalised(c, startNode, path.path, path.costKm, partySize, cfg);
    r := Chosen(x);
  }

  // The penalties of a candidate that has a route to the pickup.
  method Penalised(c: Candidate, startNode: int, route: seq<int>, roadKm: real, partySize: int, cfg: Config)
    returns (x: Choice)
    ensures x.vehicleId == c.vehicleId && x.vehicleType == c.vehicleType
    ensures x.startNode == startNode && x.route == route && x.roadKm == roadKm
    ensures x.batteryPenaltyKm == BatteryPenalty(c, cfg) && x.sizePenaltyKm == SizePenalty(c, partySize, cfg)
    ensures x.score == roadKm + x.batteryPenaltyKm + x.sizePenaltyKm
    ensures x.batteryPenaltyKm ==
            (if c.currentState == Charging then cfg.chargingPenaltyKm else 0.0)
            + (if c.batteryLevel < cfg.lowBatteryPct then cfg.lowBatteryPenaltyKm
               else if c.batteryLevel < cfg.midBatteryPct then cfg.midBatteryPenaltyKm else 0.0)
    ensures x.sizePenaltyKm == (if c.seats <= partySize then 0 else c.seats - partySize) as real * cfg.oversizeKmPerSeat
  {
    var batteryPenaltyKm := 0.0;
    if c.currentState == Charging {
      batteryPenaltyKm := batteryPenaltyKm + cfg.chargingPenaltyKm;
    }
    if c.batteryLevel < cfg.lowBatteryPct {
      batteryPenaltyKm := batteryPenaltyKm + cfg.lowBatteryPenaltyKm;
    } else if c.batteryLevel < cfg.midBatteryPct {
      batteryPenaltyKm := batteryPenaltyKm + cfg.midBatteryPenaltyKm;
    }
    var unused := if c.seats - partySize > 0 then c.seats - partySize else 0;
    var sizePenaltyKm := unused as real * cfg.oversizeKmPerSeat;
    x := Choice(c.vehicleId, c.vehicleType, startNode, route, roadKm, batteryPenaltyKm, sizePenaltyKm,
               roadKm + batteryPenaltyKm + sizePenaltyKm);
  }

  method SelectVehicle(cs: seq<Candidate>, pickup: int, G: RoadGraph, d: Distance, partySize: int, cfg: Config)
    returns (r: SelectResult)
    requires IsMetric(d) && Valid(G, d)
    ensures r.Threw? <==> cs != [] && pickup !in G.node
    ensures r.NoneReachable? ==> forall j :: 0 <= j < |cs| ==> !CanReach(G, d, pickup, cs[j])
    ensures r.Chosen? ==> exists i :: BestOf(G, d, pickup, partySize, cfg, cs, i, r.choice)
  {
    hide BestOf, ChoiceOf, CanReach, Valid, IsMetric;
    r := NoneReachable;
    ghost var at := 0;
    for k := 0 to |cs|
      invariant !r.Threw? && (k > 0 ==> pickup in G.node)
      invariant r.NoneReachable? ==> forall j :: 0 <= j < k ==> !CanReach(G, d, pickup, cs[j])
      invariant r.Chosen? ==> BestOf(G, d, pickup, partySize, cfg, cs[..k], at, r.choice)
    {
      assert cs[..k + 1] == cs[..k] + [cs[k]];
      var x := Score(cs[k], pickup, G, d, partySize, cfg);
      if x.Threw? {
        return Threw;
      }
      if x.NoneReachable? {
        if r.Chosen? {
          BestOfSkips(G, d, pickup, partySize, cfg, cs[..k], at, r.choice, cs[k]);
        }
      } else if r.NoneReachable? || x.choice.score < r.choice.score {
        if r.NoneReachable? {
          BestOfFirst(G, d, pickup, partySize, cfg, cs[..k], cs[k], x.choice);
        } else {
          BestOfReplaced(G, d, pickup, partySize, cfg, cs[..k], at, r.choice, cs[k], x.choice);
        }
        r := x;
        at := k;
      } else {
        BestOfStays(G, d, pickup, partySize, cfg, cs[..k], at, r.choice, cs[k], x.choice);
      }
    }
    assert cs[..|cs|] == cs;
  }

  lemma Unreached(G: RoadGraph, d: Distance, pickup: int, c: Candidate, startNode: int)
    requires IsNearest(G, d, c.pos, startNode) && !Reachable(G, startNode, pickup)
    ensures !CanReach(G, d, pickup, c)
  {
    forall n | IsNearest(G, d, c.pos, n) ensures !Reachable(G, n, pickup) {
      NearestUnique(G, d, c.pos, n, startNode);
    }
  }

  lemma AttainableReaches(G: RoadGraph, d: Distance, pickup: int, partySize: int, cfg: Config, c: Candidate, s: real)
    requires Attainable(G, d, pickup, partySize, cfg, c, s)
    ensures CanReach(G, d, pickup, c)
  {
  }

  lemma BestOfFirst(G: RoadGraph, d: Distance, pickup: int, partySize: int, cfg: Config, cs: seq<Candidate>,
                    c: Candidate, x: Choice)
    requires ChoiceOf(G, d, pickup, partySize, cfg, c, x)
    requires forall j :: 0 <= j < |cs| ==> !CanReach(G, d, pickup, cs[j])
    ensures BestOf(G, d, pickup, partySize, cfg, cs + [c], |cs|, x)
  {
    forall j, s | 0 <= j <= |cs| && Attainable(G, d, pickup, partySize, cfg, (cs + [c])[j], s)
      ensures j == |cs| && x.score <= s
    {
      AttainableReaches(G, d, pickup, partySize, cfg, (cs + [c])[j], s);
      ScoreIsLeast(G, d, pickup, partySize, cfg, c, x, s);
    }
  }

  lemma BestOfReplaced(G: RoadGraph, d: Distance, pickup: int, partySize: int, cfg: Config,
                       cs: seq<Candidate>, i: nat, best: Choice, c: Candidate, x: Choice)
    requires BestOf(G, d, pickup, partySize, cfg, cs, i, best)
    requires ChoiceOf(G, d, pickup, partySize, cfg, c, x) && x.score < best.score
    ensures BestOf(G, d, pickup, partySize, cfg, cs + [c], |cs|, x)
  {
    forall j, s | 0 <= j <= |cs| && Attainable(G, d, pickup, partySize, cfg, (cs + [c])[j], s)
      ensures x.score <= s && (j < |cs| ==> x.score < s)
    {
      if j == |cs| {
        ScoreIsLeast(G, d, pickup, partySize, cfg, c, x, s);
      }
    }
  }

  lemma BestOfStays(G: RoadGraph, d: Distance, pickup: int, partySize: int, cfg: Config,
                    cs: seq<Candidate>, i: nat, best: Choice, c: Candidate, x: Choice)
    requires BestOf(G, d, pickup, partySize, cfg, cs, i, best)
    requires ChoiceOf(G, d, pickup, partySize, cfg, c, x) && best.score <= x.score
    ensures BestOf(G, d, pickup, partySize, cfg, cs + [c], i, best)
  {
    forall s | Attainable(G, d, pickup, partySize, cfg, c, s) ensures best.score <= s {
      ScoreIsLeast(G, d, pickup, partySize, cfg, c, x, s);
    }
  }

  lemma BestOfSkips(G: RoadGraph, d: Distance, pickup: int, partySize: int, cfg: Config,
                    cs: seq<Candidate>, i: nat, best: Choice, c: Candidate)
    requires BestOf(G, d, pickup, partySize, cfg, cs, i, best) && !CanReach(G, d, pickup, c)
    ensures BestOf(G, d, pickup, partySize, cfg, cs + [c], i, best)
  {
    forall s ensures !Attainable(G, d, pickup, partySize, cfg, c, s) {
      if Attainable(G, d, pickup, partySize, cfg, c, s) {
        AttainableReaches(G, d, pickup, partySize, cfg, c, s);
      }
    }
  }
}
