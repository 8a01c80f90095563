// handleRide as a whole, with nobody else about: the candidate list, the choice and the routes,
// and the transaction. Here the store and the road network meet.
module RideService {
  import opened Basics
  import opened RoadNetwork
  import opened Routing
  import opened Selection
  import opened RidePlan
  import opened Dispatch
  import opened FleetStore

  // The listed vehicles with what their documents and roster rows say of them.
  function Candidates(vehicles: seq<string>, detail: string -> Candidate): seq<Candidate> {
    seq(|vehicles|, i requires 0 <= i < |vehicles| => detail(vehicles[i]))
  }

  // The dispatch command published to the vehicle of an assigned ride.
  datatype Command = Command(vehicleID: string, route: seq<int>, passengers: nat)


  // The plan is the right one for the list: the chosen vehicle has the least true score of all
  // those listed and is the earliest of them, and the trip is a shortest path.
  ghost predicate PlanFor(G: RoadGraph, d: Distance, pickup: int, dropoff: int, partySize: int, cfg: Config,
                          cs: seq<Candidate>, plan: Plan)
  {
    match plan
    case NoCandidates => cs == []
    case NoVehicle => cs != [] && forall j :: 0 <= j < |cs| ==> !CanReach(G, d, pickup, cs[j])
    case TripFails =>
      !Reachable(G, pickup, dropoff) && exists j :: 0 <= j < |cs| && CanReach(G, d, pickup, cs[j])
    case Planned(choice, trip, tripKm) =>
      (exists i :: BestOf(G, d, pickup, partySize, cfg, cs, i, choice))
      && OptimalRoute(G, d, pickup, dropoff, trip, tripKm)
  }

  lemma ChoiceIsListed(G: RoadGraph, d: Distance, pickup: int, partySize: int, cfg: Config,
                       vehicles: seq<string>, detail: string -> Candidate, choice: Choice)
    requires forall v :: detail(v).vehicleId == v
    requires exists i :: BestOf(G, d, pickup, partySize, cfg, Candidates(vehicles, detail), i, choice)
    ensures choice.vehicleId in vehicles
  {
    var i: nat :| BestOf(G, d, pickup, partySize, cfg, Candidates(vehicles, detail), i, choice);
    assert choice.vehicleId == vehicles[i];
  }

  lemma LeastServed(G: RoadGraph, d: Distance, pickup: int, partySize: int, cfg: Config,
                    vehicles: seq<string>, detail: string -> Candidate, choice: Choice)
    requires exists i :: BestOf(G, d, pickup, partySize, cfg, Candidates(vehicles, detail), i, choice)
    ensures forall v, s ::
              v in vehicles && Attainable(G, d, pickup, partySize, cfg, detail(v), s) ==> choice.score <= s
  {
    var cs := Candidates(vehicles, detail);
    var i: nat :| BestOf(G, d, pickup, partySize, cfg, cs, i, choice);
    forall v, s | v in vehicles && Attainable(G, d, pickup, partySize, cfg, detail(v), s) ensures choice.score <= s {
      var j :| 0 <= j < |vehicles| && vehicles[j] == v;
      assert cs[j] == detail(v);
    }
  }

  // The request ends as its plan says, and its steps are a run of the protocol. A planned ride
  // is booked exactly if its vehicle is still available and the insert works: the vehicle, the
  // best of the very list the request was served, alone changes status and gets one ride, and
  // is sent its route.
  method HandleRide(store: Store, r: nat, passengers: nat, detail: string -> Candidate, pickup: int, dropoff: int,
                    G: RoadGraph, d: Distance, cfg: Config,
                    getWorks: bool, setWorks: bool, insertWorks: bool, delWorks: bool)
    returns (response: Response, plan: Plan, command: Option<Command>, served: seq<string>, ghost actions: seq<Action>)
    requires store.Valid() && !At(store.sys, r) && passengers >= 1 && store.sys.locks == map[]
    requires IsMetric(d) && RoadNetwork.Valid(G, d) && pickup in G.node && dropoff in G.node
    requires forall v :: detail(v).vehicleId == v
    modifies store
    ensures store.Valid() && Run(store.ro, old(store.sys), actions, store.sys)
    ensures At(store.sys, r) && PcOf(store.sys, r) == Done(response)
    ensures PlanFor(G, d, pickup, dropoff, passengers, cfg, Candidates(served, detail), plan)
    ensures plan.NoCandidates? <==> served == []
    ensures plan.NoCandidates? ==> response == Response.NoneAvailable
    ensures plan.NoVehicle? ==> response == Response.NoneReachable
    ensures plan.TripFails? ==> response == Response.Failed
    ensures plan.Planned? ==>
              response == if plan.choice.vehicleId !in old(store.available) then Response.JustTaken
                          else if !insertWorks then Response.Failed
                          else Response.Assigned(plan.choice.vehicleId)
    ensures plan.Planned? ==> forall v, s ::
              v in served && Attainable(G, d, pickup, passengers, cfg, detail(v), s) ==> plan.choice.score <= s
    ensures command == if response.Assigned? then Some(Command(plan.choice.vehicleId, plan.choice.route, passengers))
                       else None
    ensures Connected(G) && served != [] ==> plan.Planned?
    ensures response.Assigned? ==>
              response.vehicle in old(store.available) && store.available == old(store.available) - {response.vehicle}
              && store.rides == old(store.rides) + [Ride(r, response.vehicle)]
    ensures !response.Assigned? ==> store.available == old(store.available) && store.rides == old(store.rides)
    ensures !Hit(old(store.cache), passengers, old(store.now), getWorks) ==>
              forall v :: v in served <==>
                v in old(store.readable) && v in store.ro.seats && store.ro.seats[v] >= passengers
                && v in old(store.documents)
    ensures Hit(old(store.cache), passengers, old(store.now), getWorks) ==>
        served == old(store.cache)[passengers].vehicles
  {
    command := None;
    hide Run, Dispatch.Next, Dispatch.Enabled, BestOf, OptimalRoute, CanReach, Reachable, IsMetric, RoadNetwork.Valid,
         Attainable, Connected, IsNearest;
    ghost var ro := store.ro;
    NothingRun(ro, store.sys);
    store.Open(r, passengers);
    actions := Then(ro, old(store.sys), [], old(store.sys), Arrive(r, passengers));
    ghost var before := store.sys;
    ghost var listing: seq<Action>;
    served, listing := store.AvailableCandidates(r, passengers, getWorks, setWorks);
    RunsOn(ro, old(store.sys), actions, before, listing, store.sys);
    actions := actions + listing;
    plan := PlanRide(Candidates(served, detail), pickup, dropoff, G, d, passengers, cfg);
    before := store.sys;
    match plan
    case NoCandidates =>
      response := Response.NoneAvailable;
    case NoVehicle =>
      store.PickNone(r);
      actions := Then(ro, old(store.sys), actions, before, NoChoice(r));
      response := Response.NoneReachable;
    case TripFails =>
      store.GiveUp(r);
      actions := Then(ro, old(store.sys), actions, before, Fail(r));
      response := Response.Failed;
    case Planned(choice, _, _) =>
      ChoiceIsListed(G, d, pickup, passengers, cfg, served, detail, choice);
      LeastServed(G, d, pickup, passengers, cfg, served, detail, choice);
      ghost var booking: seq<Action>;
      response, command, booking := Book(store, r, choice, passengers, insertWorks, delWorks);
      RunsOn(ro, old(store.sys), actions, before, booking, store.sys);
      actions := actions + booking;
  }

  // The transaction for the vehicle chosen, and the command to it.
  method Book(store: Store, r: nat, choice: Choice, passengers: nat, insertWorks: bool, delWorks: bool)
    returns (response: Response, command: Option<Command>, ghost actions: seq<Action>)
    requires store.Valid() && At(store.sys, r) && PcOf(store.sys, r).HasList?
    requires choice.vehicleId in PcOf(store.sys, r).listing.vehicles && choice.vehicleId !in store.sys.locks
    modifies store
    ensures store.Valid() && Run(store.ro, old(store.sys), actions, store.sys)
    ensures At(store.sys, r) && PcOf(store.sys, r) == Done(response)
    ensures response == if choice.vehicleId !in old(store.available) then Response.JustTaken
                        else if !insertWorks then Response.Failed
                        else Response.Assigned(choice.vehicleId)
    ensures response.Assigned? ==>
              store.available == old(store.available) - {choice.vehicleId}
              && store.rides == old(store.rides) + [Ride(r, choice.vehicleId)]
    ensures !response.Assigned? ==> store.available == old(store.available) && store.rides == old(store.rides)
    ensures command == if response.Assigned? then Some(Command(choice.vehicleId, choice.route, passengers)) else None
  {
    hide Run, Dispatch.Next, Dispatch.Enabled;
    NothingRun(store.ro, store.sys);
    store.Pick(r, choice.vehicleId);
    actions := Then(store.ro, old(store.sys), [], old(store.sys), Choose(r, choice.vehicleId));
    ghost var before := store.sys;
    var trip, assigning := store.AssignTrip(r, choice.vehicleId, insertWorks, delWorks);
    RunsOn(store.ro, old(store.sys), actions, before, assigning, store.sys);
    actions := actions + assigning;
    match trip
    case Taken => response, command := Response.JustTaken, None;
    case Threw => response, command := Response.Failed, None;
    case Recorded =>
      response := Response.Assigned(choice.vehicleId);
      command := Some(Command(choice.vehicleId, choice.route, passengers));
  }
}
