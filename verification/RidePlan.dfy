// The part of handleRide between the candidate list and the transaction: choose a vehicle,
// route it to the pickup, and route the trip.
module RidePlan {
  import opened Basics
  import opened RoadNetwork
  import opened Routing
  import opened Selection

  // NoCandidates and NoVehicle are answered 409; TripFails is the TypeError on the cost of a
  // trip that has no route, answered 500 before anything is written.
  datatype Plan = NoCandidates | NoVehicle | TripFails | Planned(choice: Choice, trip: seq<int>, tripKm: real)

  // pickup and dropoff come from idByName, so the graph holds them.
  method PlanRide(cs: seq<Candidate>, pickup: int, dropoff: int, G: RoadGraph, d: Distance, partySize: int, cfg: Config)
    returns (r: Plan)
    requires IsMetric(d) && Valid(G, d) && pickup in G.node && dropoff in G.node
    ensures r.NoCandidates? <==> cs == []
    ensures r.NoVehicle? ==> forall j :: 0 <= j < |cs| ==> !CanReach(G, d, pickup, cs[j])
    ensures r.TripFails? ==> !Reachable(G, pickup, dropoff)
    ensures r.TripFails? ==> exists j :: 0 <= j < |cs| && CanReach(G, d, pickup, cs[j])
    ensures r.Planned? ==> (exists i :: BestOf(G, d, pickup, partySize, cfg, cs, i, r.choice))
                           && OptimalRoute(G, d, pickup, dropoff, r.trip, r.tripKm)
    ensures Connected(G) && cs != [] ==> r.Planned?
  {
    if cs == [] {
      return NoCandidates;
    }
    var selected := SelectVehicle(cs, pickup, G, d, partySize, cfg);
    if selected.NoneReachable? {
      if Connected(G) {
        ConnectedReaches(G, d, pickup, cs[0]);
      }
      return NoVehicle;
    }
    var trip, log := AStar(G, d, pickup, dropoff);
    ChosenReaches(G, d, pickup, partySize, cfg, cs, selected.choice);
    if trip.NoRoute? {
      return TripFails;
    }
    r := Planned(selected.choice, trip.path, trip.costKm);
  }

  lemma ChosenReaches(G: RoadGraph, d: Distance, pickup: int, partySize: int, cfg: Config, cs: seq<Candidate>,
                      x: Choice)
    requires exists i :: BestOf(G, d, pickup, partySize, cfg, cs, i, x)
    ensures exists j :: 0 <= j < |cs| && CanReach(G, d, pickup, cs[j])
  {
    var i: nat :| BestOf(G, d, pickup, partySize, cfg, cs, i, x);
    assert CanReach(G, d, pickup, cs[i]) by {
      assert IsNearest(G, d, cs[i].pos, x.startNode) && IsWalk(G, x.route, x.startNode, pickup);
    }
  }

  // A graph with a node has a nearest landmark to every position.
  lemma {:induction false} NearestExists(G: RoadGraph, d: Distance, pos: Coord, k: nat) returns (i: nat)
    requires 0 < k <= |G.order|
    ensures i < k && NearestBefore(G, d, pos, k, G.order[i], Off(G, d, pos, i))
  {
    if k == 1 {
      i := 0;
    } else {
      var j := NearestExists(G, d, pos, k - 1);
      i := if Off(G, d, pos, k - 1) < Off(G, d, pos, j) then k - 1 else j;
      var m :| 0 <= m < k - 1 && G.order[m] == G.order[j] && Off(G, d, pos, j) == Off(G, d, pos, m)
               && (forall n :: 0 <= n < k - 1 ==> Off(G, d, pos, j) <= Off(G, d, pos, n))
               && (forall n :: 0 <= n < m ==> Off(G, d, pos, j) < Off(G, d, pos, n));
    }
  }

  lemma ConnectedReaches(G: RoadGraph, d: Distance, pickup: int, c: Candidate)
    requires Valid(G, d) && Connected(G) && pickup in G.node
    ensures CanReach(G, d, pickup, c)
  {
    assert pickup in Elements(G.order);
    var i := NearestExists(G, d, c.pos, |G.order|);
    assert G.order[i] in Elements(G.order);
    assert IsNearest(G, d, c.pos, G.order[i]);
  }
}
