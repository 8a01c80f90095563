// The simulated vehicle: the actuator's dispatch and stop commands, the tick that drives a
// route, and delivery from a dispatch to arrival at the pickup.
module Simulator {
  import opened Basics
  import opened RoadNetwork
  import opened Routing
  import opened Selection

  // What dispatch, stop and tick read and change of a vehicle.
  datatype Sim = Sim(nodeId: int, route: seq<int>, edgeProgress: real, pos: Coord, state: VehicleState)

  // Simulated seconds per tick; the km driven in one tick at a speed in km/h.
  const TICK_S: real := 30.0

  function TickKm(speed: real): real {
    speed / 3600.0 * TICK_S
  }

  // Math.max(havKm(from, to), 0.001)
  function EdgeKm(G: RoadGraph, d: Distance, u: int, v: int): real
    requires u in G.node && v in G.node
  {
    var km := d(G.node[u].pos, G.node[v].pos);
    if km > 0.001 then km else 0.001
  }

  function Along(a: Coord, b: Coord, p: real): Coord {
    Coord(a.lat + (b.lat - a.lat) * p, a.lon + (b.lon - a.lon) * p)
  }

  predicate Known(G: RoadGraph, v: Sim) {
    v.nodeId in G.node && forall i :: 0 <= i < |v.route| ==> v.route[i] in G.node
  }

  function Dispatched(v: Sim, route: seq<int>): Sim {
    v.(route := if route != [] && route[0] == v.nodeId then route[1..] else route, edgeProgress := 0.0)
  }

  function Stopped(v: Sim): Sim {
    v.(route := [], state := Parked)
  }

  // One tick at the given speed; `low` says that the battery is below 40%.
  function Ticked(G: RoadGraph, d: Distance, v: Sim, speed: real, low: bool): Sim
    requires Known(G, v)
  {
    if v.route == [] then v.(pos := G.node[v.nodeId].pos, state := if low then Charging else Parked)
    else
      var to := v.route[0];
      var p := v.edgeProgress + TickKm(speed) / EdgeKm(G, d, v.nodeId, to);
      if p >= 1.0 then
        v.(nodeId := to, route := v.route[1..], edgeProgress := 0.0, pos := G.node[to].pos,
           state := if |v.route| == 1 then Parked else Driving)
      else
        v.(edgeProgress := p, pos := Along(G.node[v.nodeId].pos, G.node[to].pos, p), state := Driving)
  }

  class Vehicle {
    var nodeId: int
    var route: seq<int>
    var edgeProgress: real
    var pos: Coord
    var currentState: VehicleState

    ghost function State(): Sim
      reads this
    {
      Sim(nodeId, route, edgeProgress, pos, currentState)
    }

    constructor (home: int, at: Coord)
      ensures State() == Sim(home, [], 0.0, at, Parked)
    {
      nodeId, route, edgeProgress, pos, currentState := home, [], 0.0, at, Parked;
    }

    method Dispatch(newRoute: seq<int>)
      modifies this
      ensures State() == Dispatched(old(State()), newRoute)
      ensures route == if newRoute != [] && newRoute[0] == old(nodeId) then newRoute[1..] else newRoute
      ensures edgeProgress == 0.0 && nodeId == old(nodeId) && pos == old(pos) && currentState == old(currentState)
    {
      route := newRoute;
      if |route| > 0 && route[0] == nodeId {
        route := route[1..];
      }
      edgeProgress := 0.0;
    }

    method Stop()
      modifies this
      ensures State() == Stopped(old(State()))
      ensures route == [] && currentState == Parked
      ensures nodeId == old(nodeId) && pos == old(pos) && edgeProgress == old(edgeProgress)
    {
      route := [];
      currentState := Parked;
    }

    method Tick(G: RoadGraph, d: Distance, speed: real, low: bool)
      requires Known(G, State())
      modifies this
      ensures State() == Ticked(G, d, old(State()), speed, low)
    {
      if |route| > 0 {
        currentState := Driving;
        var from, to := G.node[nodeId].pos, G.node[route[0]].pos;
        edgeProgress := edgeProgress + TickKm(speed) / EdgeKm(G, d, nodeId, route[0]);
        if edgeProgress >= 1.0 {
          nodeId := route[0];
          route := route[1..];
          edgeProgress := 0.0;
          pos := G.node[nodeId].pos;
          if |route| == 0 {
            currentState := Parked;
          }
        } else {
          pos := Along(from, to, edgeProgress);
        }
      } else {
        pos := G.node[nodeId].pos;
        currentState := if low then Charging else Parked;
      }
    }
  }

  // A driving tick in numbers: the vehicle goes speed / 120 km (30 seconds of its speed) along
  // a road of at least 0.001 km. Short of the end it reports the point as far along the line
  // as its progress says; otherwise it is at the next node, and parked if that is the last.
  lemma TickDrives(G: RoadGraph, d: Distance, v: Sim, speed: real, low: bool)
    requires Known(G, v) && v.route != []
    ensures var a, b := G.node[v.nodeId].pos, G.node[v.route[0]].pos;
            var km := if d(a, b) > 0.001 then d(a, b) else 0.001;
            var progress := v.edgeProgress + speed / 120.0 / km;
            var after := Ticked(G, d, v, speed, low);
            if progress >= 1.0 then
              && after.nodeId == v.route[0] && after.route == v.route[1..]
              && after.edgeProgress == 0.0 && after.pos == b
              && after.state == (if |v.route| == 1 then Parked else Driving)
            else
              && after.nodeId == v.nodeId && after.route == v.route && after.edgeProgress == progress
              && after.state == Driving
              && after.pos.lat - a.lat == progress * (b.lat - a.lat)
              && after.pos.lon - a.lon == progress * (b.lon - a.lon)
  {
    assert TickKm(speed) == speed / 120.0;
  }

  // An idle tick: at its node, charging exactly if the battery is low.
  lemma TickIdles(G: RoadGraph, d: Distance, v: Sim, speed: real, low: bool)
    requires Known(G, v) && v.route == []
    ensures var after := Ticked(G, d, v, speed, low);
            && after.nodeId == v.nodeId && after.route == [] && after.edgeProgress == v.edgeProgress
            && after.pos == G.node[v.nodeId].pos
            && (after.state == Charging <==> low) && (after.state == Parked <==> !low)
  {
  }

  // ---- how long a route takes ----

  function Ceil(x: real): int {
    -(-x).Floor
  }

  function TicksFor(p: real, L: real, m: real): int
    requires m != 0.0
  {
    Ceil((1.0 - p) * L / m)
  }

  // Ticks that are enough to finish an edge of which the fraction p is done.
  function EdgeTicks(G: RoadGraph, d: Distance, u: int, v: int, p: real, minSpeed: real): int
    requires u in G.node && v in G.node && minSpeed > 0.0
  {
    TickSpeeds(minSpeed, minSpeed);
    TicksFor(p, EdgeKm(G, d, u, v), TickKm(minSpeed))
  }

  // Ticks that are enough to drive the whole of a path.
  function PathTicks(G: RoadGraph, d: Distance, path: seq<int>, minSpeed: real): int
    requires minSpeed > 0.0 && forall i :: 0 <= i < |path| ==> path[i] in G.node
  {
    if |path| < 2 then 0 else EdgeTicks(G, d, path[0], path[1], 0.0, minSpeed) + PathTicks(G, d, path[1..], minSpeed)
  }

  ghost function Remaining(G: RoadGraph, d: Distance, v: Sim, minSpeed: real): int
    requires Known(G, v) && minSpeed > 0.0
  {
    if v.route == [] then 0
    else EdgeTicks(G, d, v.nodeId, v.route[0], v.edgeProgress, minSpeed) + PathTicks(G, d, v.route, minSpeed)
  }

  lemma CeilPositive(x: real)
    requires x > 0.0
    ensures Ceil(x) >= 1
  {
  }

  lemma CeilLessOne(x: real, y: real)
    requires y <= x - 1.0
    ensures Ceil(y) <= Ceil(x) - 1
  {
  }

  lemma Positive(a: real, b: real)
    requires a > 0.0 && b > 0.0
    ensures a / b > 0.0 && a * b > 0.0
  {
  }

  lemma DivIs(a: real, q: real, m: real)
    requires m > 0.0 && q * m == a
    ensures a / m == q
  {
  }

  lemma DivMonotone(a: real, b: real, m: real)
    requires a <= b && m > 0.0
    ensures a / m <= b / m
  {
  }

  lemma DivLessOne(a: real, s: real, m: real)
    requires m > 0.0 && s >= m
    ensures (a - s) / m <= a / m - 1.0
  {
    var q := a / m;
    assert q * m == a;
    assert (q - 1.0) * m == a - m;
    DivIs(a - m, q - 1.0, m);
    DivMonotone(a - s, a - m, m);
  }

  // Driving s km of an edge of L km covers the fraction s / L of it.
  lemma RestOfEdge(p: real, L: real, s: real)
    requires L > 0.0
    ensures (1.0 - (p + s / L)) * L == (1.0 - p) * L - s
  {
    var q := s / L;
    assert q * L == s;
    assert (1.0 - (p + q)) * L == (1.0 - p) * L - q * L;
  }

  // On course: progress is a fraction of the current edge.
  predicate OnEdge(v: Sim) {
    0.0 <= v.edgeProgress < 1.0
  }

  lemma TickSpeeds(speed: real, minSpeed: real)
    requires speed >= minSpeed > 0.0
    ensures TickKm(speed) >= TickKm(minSpeed) > 0.0
  {
  }

  lemma TicksForPositive(p: real, L: real, m: real)
    requires p < 1.0 && L > 0.0 && m > 0.0
    ensures TicksFor(p, L, m) >= 1
  {
    Positive(1.0 - p, L);
    Positive((1.0 - p) * L, m);
    CeilPositive((1.0 - p) * L / m);
  }

  lemma TicksForLess(p: real, L: real, s: real, m: real)
    requires L > 0.0 && m > 0.0 && s >= m
    ensures TicksFor(p + s / L, L, m) <= TicksFor(p, L, m) - 1
  {
    RestOfEdge(p, L, s);
    DivLessOne((1.0 - p) * L, s, m);
    CeilLessOne((1.0 - p) * L / m, ((1.0 - p) * L - s) / m);
  }

  lemma EdgeTicksPositive(G: RoadGraph, d: Distance, u: int, v: int, p: real, minSpeed: real)
    requires u in G.node && v in G.node && p < 1.0 && minSpeed > 0.0
    ensures EdgeTicks(G, d, u, v, p, minSpeed) >= 1
  {
    TickSpeeds(minSpeed, minSpeed);
    TicksForPositive(p, EdgeKm(G, d, u, v), TickKm(minSpeed));
    hide TicksFor, TickKm;
  }

  lemma EdgeTicksLess(G: RoadGraph, d: Distance, u: int, v: int, p: real, speed: real, minSpeed: real)
    requires u in G.node && v in G.node && speed >= minSpeed > 0.0
    ensures EdgeTicks(G, d, u, v, p + TickKm(speed) / EdgeKm(G, d, u, v), minSpeed) <=
            EdgeTicks(G, d, u, v, p, minSpeed) - 1
  {
    TickSpeeds(speed, minSpeed);
    TicksForLess(p, EdgeKm(G, d, u, v), TickKm(speed), TickKm(minSpeed));
    hide TicksFor, TickKm;
  }

  // A driving vehicle gets nearer with every tick.
  lemma TickProgress(G: RoadGraph, d: Distance, v: Sim, speed: real, low: bool, minSpeed: real)
    requires Known(G, v) && OnEdge(v) && speed >= minSpeed > 0.0
    ensures Known(G, Ticked(G, d, v, speed, low)) && OnEdge(Ticked(G, d, v, speed, low))
    ensures v.route != [] ==> Remaining(G, d, Ticked(G, d, v, speed, low), minSpeed) <= Remaining(G, d, v, minSpeed) - 1
    ensures v.route == [] ==> Remaining(G, d, Ticked(G, d, v, speed, low), minSpeed) == 0
  {
    if v.route != [] {
      TickSpeeds(speed, minSpeed);
      Positive(TickKm(speed), EdgeKm(G, d, v.nodeId, v.route[0]));
      EdgeTicksLess(G, d, v.nodeId, v.route[0], v.edgeProgress, speed, minSpeed);
      EdgeTicksPositive(G, d, v.nodeId, v.route[0], v.edgeProgress, minSpeed);
      hide EdgeTicks, EdgeKm, TickKm;
    }
  }

  // ---- driving ----

  datatype TickInput = TickInput(speed: real, low: bool)

  ghost function Drive(G: RoadGraph, d: Distance, v: Sim, ticks: seq<TickInput>): Sim
    requires Known(G, v)
    ensures Known(G, Drive(G, d, v, ticks))
  {
    if ticks == [] then v
    else Ticked(G, d, Drive(G, d, v, ticks[..|ticks| - 1]), ticks[|ticks| - 1].speed, ticks[|ticks| - 1].low)
  }

  ghost predicate Fast(ticks: seq<TickInput>, minSpeed: real) {
    forall i :: 0 <= i < |ticks| ==> ticks[i].speed >= minSpeed
  }

  // The vehicle stands at, or is driving from, the i-th node of the path, with the rest of
  // the path ahead.
  ghost predicate AtPlace(v: Sim, path: seq<int>, i: nat) {
    i < |path| && v.nodeId == path[i] && v.route == path[i + 1..]
  }

  // places[k] is the vehicle's place on the path after k ticks: it starts at the first node,
  // and a tick takes it to the next one or leaves it where it is.
  ghost predicate Itinerary(G: RoadGraph, d: Distance, v: Sim, ticks: seq<TickInput>, path: seq<int>, places: seq<nat>)
    requires Known(G, v)
  {
    && |places| == |ticks| + 1 && places[0] == 0
    && (forall k :: 0 <= k < |ticks| ==> places[k + 1] == places[k] || places[k + 1] == places[k] + 1)
    && (forall k :: 0 <= k <= |ticks| ==> AtPlace(Drive(G, d, v, ticks[..k]), path, places[k]))
  }

  // Without further commands a vehicle visits the nodes of its route in order, one by one,
  // never back and never past one.
  lemma {:induction false} StaysOnRoute(G: RoadGraph, d: Distance, v: Sim, ticks: seq<TickInput>, path: seq<int>)
    returns (places: seq<nat>)
    requires Known(G, v) && path == [v.nodeId] + v.route
    ensures Itinerary(G, d, v, ticks, path, places)
  {
    if ticks == [] {
      places := [0];
    } else {
      var n := |ticks| - 1;
      var before := StaysOnRoute(G, d, v, ticks[..n], path);
      assert ticks[..n][..n] == ticks[..n];
      TickMovesOn(G, d, Drive(G, d, v, ticks[..n]), ticks[n].speed, ticks[n].low, path, before[n]);
      hide Ticked, AtPlace, Itinerary;
      var i := if AtPlace(Drive(G, d, v, ticks), path, before[n]) then before[n] else before[n] + 1;
      ItineraryGoesOn(G, d, v, ticks, path, before, i);
      places := before + [i];
    }
  }

  lemma ItineraryGoesOn(G: RoadGraph, d: Distance, v: Sim, ticks: seq<TickInput>, path: seq<int>, places: seq<nat>,
                        i: nat)
    requires Known(G, v) && ticks != [] && Itinerary(G, d, v, ticks[..|ticks| - 1], path, places)
    requires (i == places[|ticks| - 1] || i == places[|ticks| - 1] + 1) && AtPlace(Drive(G, d, v, ticks), path, i)
    ensures Itinerary(G, d, v, ticks, path, places + [i])
  {
    hide Drive, AtPlace, Known;
    var n := |ticks| - 1;
    forall k | 0 <= k <= n + 1 ensures AtPlace(Drive(G, d, v, ticks[..k]), path, (places + [i])[k]) {
      if k <= n {
        assert ticks[..n][..k] == ticks[..k];
      } else {
        assert ticks[..k] == ticks;
      }
    }
  }

  lemma DrivingMeansRoute(G: RoadGraph, d: Distance, v: Sim, ticks: seq<TickInput>)
    requires Known(G, v) && ticks != []
    ensures Drive(G, d, v, ticks).state == Driving <==> Drive(G, d, v, ticks).route != []
    ensures OnTheRoad(G, Drive(G, d, v, ticks))
  {
  }

  // The reported position: at the vehicle's node, or on the line to the next node of its
  // route, as far along as its progress says.
  ghost predicate OnTheRoad(G: RoadGraph, v: Sim)
    requires Known(G, v)
  {
    v.pos == if v.route == [] then G.node[v.nodeId].pos
             else Along(G.node[v.nodeId].pos, G.node[v.route[0]].pos, v.edgeProgress)
  }

  // A tick leaves a vehicle at its place on the path or takes it to the next one.
  lemma TickMovesOn(G: RoadGraph, d: Distance, v: Sim, speed: real, low: bool, path: seq<int>, i: nat)
    requires Known(G, v) && AtPlace(v, path, i)
    ensures AtPlace(Ticked(G, d, v, speed, low), path, i) || AtPlace(Ticked(G, d, v, speed, low), path, i + 1)
    ensures Ticked(G, d, v, speed, low).route == v.route || AtPlace(Ticked(G, d, v, speed, low), path, i + 1)
  {
  }

  lemma {:induction false} RemainingShrinks(G: RoadGraph, d: Distance, v: Sim, ticks: seq<TickInput>, minSpeed: real)
    requires Known(G, v) && OnEdge(v) && minSpeed > 0.0 && Fast(ticks, minSpeed)
    ensures OnEdge(Drive(G, d, v, ticks))
    ensures Drive(G, d, v, ticks).route == []
            || Remaining(G, d, Drive(G, d, v, ticks), minSpeed) <= Remaining(G, d, v, minSpeed) - |ticks|
  {
    if ticks != [] {
      var n := |ticks| - 1;
      RemainingShrinks(G, d, v, ticks[..n], minSpeed);
      TickProgress(G, d, Drive(G, d, v, ticks[..n]), ticks[n].speed, ticks[n].low, minSpeed);
    }
  }

  // The bound is tight: at exactly the minimum speed every tick uses up one.
  lemma TicksForExact(p: real, L: real, m: real)
    requires L > 0.0 && m > 0.0
    ensures TicksFor(p + m / L, L, m) == TicksFor(p, L, m) - 1
    ensures p < 1.0 && p + m / L >= 1.0 ==> TicksFor(p, L, m) == 1
  {
    RestOfEdge(p, L, m);
    var x := (1.0 - p) * L / m;
    assert x * m == (1.0 - p) * L;
    assert (x - 1.0) * m == (1.0 - p) * L - m;
    DivIs((1.0 - p) * L - m, x - 1.0, m);
    CeilLessOneExactly(x);
    if p < 1.0 && p + m / L >= 1.0 {
      TicksForPositive(p, L, m);
      AtMostOne(p, L, m, x);
    }
  }

  lemma CeilLessOneExactly(x: real)
    ensures Ceil(x - 1.0) == Ceil(x) - 1
  {
  }

  lemma AtMostOne(p: real, L: real, m: real, x: real)
    requires L > 0.0 && m > 0.0 && p + m / L >= 1.0 && x * m == (1.0 - p) * L
    ensures Ceil(x) <= 1
  {
    var q, rest := m / L, 1.0 - p;
    assert q * L == m;
    MulMonotone(rest, q, L);
    assert rest * L == x * m;
    NoMoreThanOnce(x, m);
  }

  lemma NoMoreThanOnce(x: real, m: real)
    requires m > 0.0 && x * m <= m
    ensures x <= 1.0
  {
    var y := x - 1.0;
    assert y * m == x * m - m;
    if y > 0.0 {
      Positive(y, m);
    }
  }

  lemma MulMonotone(a: real, b: real, m: real)
    requires a <= b && m > 0.0
    ensures a * m <= b * m
  {
  }

  lemma TickExact(G: RoadGraph, d: Distance, v: Sim, low: bool, minSpeed: real)
    requires Known(G, v) && OnEdge(v) && v.route != [] && minSpeed > 0.0
    ensures Known(G, Ticked(G, d, v, minSpeed, low)) && OnEdge(Ticked(G, d, v, minSpeed, low))
    ensures Remaining(G, d, Ticked(G, d, v, minSpeed, low), minSpeed) == Remaining(G, d, v, minSpeed) - 1
  {
    TickProgress(G, d, v, minSpeed, low, minSpeed);
    TickSpeeds(minSpeed, minSpeed);
    TicksForExact(v.edgeProgress, EdgeKm(G, d, v.nodeId, v.route[0]), TickKm(minSpeed));
    hide EdgeKm, TickKm, TicksFor;
  }

  // At a constant speed the vehicle is at the end of its path after exactly the ticks computed
  // for that speed, and not before.
  lemma {:induction false} BoundIsTight(G: RoadGraph, d: Distance, v: Sim, ticks: seq<TickInput>, minSpeed: real)
    requires Known(G, v) && v.edgeProgress == 0.0 && minSpeed > 0.0
    requires forall k :: 0 <= k < |ticks| ==> ticks[k].speed == minSpeed
    ensures forall k :: 0 <= k < |[v.nodeId] + v.route| ==> ([v.nodeId] + v.route)[k] in G.node
    ensures OnEdge(Drive(G, d, v, ticks))
    ensures Drive(G, d, v, ticks).route == [] <==> |ticks| >= PathTicks(G, d, [v.nodeId] + v.route, minSpeed)
    ensures |ticks| < PathTicks(G, d, [v.nodeId] + v.route, minSpeed) ==>
              Remaining(G, d, Drive(G, d, v, ticks), minSpeed) ==
              PathTicks(G, d, [v.nodeId] + v.route, minSpeed) - |ticks|
  {
    RemainingAtStart(G, d, v, [v.nodeId] + v.route, minSpeed);
    var n := PathTicks(G, d, [v.nodeId] + v.route, minSpeed);
    if v.route != [] {
      RemainingPositive(G, d, v, minSpeed);
    }
    if ticks != [] {
      var front, t := ticks[..|ticks| - 1], ticks[|ticks| - 1];
      BoundIsTight(G, d, v, front, minSpeed);
      var u := Drive(G, d, v, front);
      if u.route != [] {
        TickExact(G, d, u, t.low, minSpeed);
        StillToGo(G, d, Ticked(G, d, u, minSpeed, t.low), minSpeed);
      }
    }
  }

  // A vehicle has ticks left to use exactly while it has a route.
  lemma StillToGo(G: RoadGraph, d: Distance, v: Sim, minSpeed: real)
    requires Known(G, v) && OnEdge(v) && minSpeed > 0.0
    ensures v.route == [] <==> Remaining(G, d, v, minSpeed) == 0
    ensures Remaining(G, d, v, minSpeed) >= 0
  {
    if v.route != [] {
      RemainingPositive(G, d, v, minSpeed);
    }
  }

  lemma {:induction false} PathTicksNonNegative(G: RoadGraph, d: Distance, path: seq<int>, minSpeed: real)
    requires minSpeed > 0.0 && forall i :: 0 <= i < |path| ==> path[i] in G.node
    ensures PathTicks(G, d, path, minSpeed) >= 0
    decreases |path|
  {
    if |path| >= 2 {
      EdgeTicksPositive(G, d, path[0], path[1], 0.0, minSpeed);
      PathTicksNonNegative(G, d, path[1..], minSpeed);
    }
  }

  // As long as ticks have not run out, a vehicle still on its route has ticks left to use.
  lemma RemainingPositive(G: RoadGraph, d: Distance, v: Sim, minSpeed: real)
    requires Known(G, v) && OnEdge(v) && minSpeed > 0.0 && v.route != []
    ensures Remaining(G, d, v, minSpeed) >= 1
  {
    EdgeTicksPositive(G, d, v.nodeId, v.route[0], v.edgeProgress, minSpeed);
    PathTicksNonNegative(G, d, v.route, minSpeed);
  }

  // ---- from dispatch to arrival ----

  // Landmarks lie more than twice the reporting error apart from this one.
  ghost predicate Separated(G: RoadGraph, d: Distance, home: int, error: real) {
    home in G.node && forall n :: n in G.node && n != home ==> d(G.node[home].pos, G.node[n].pos) > 2.0 * error
  }

  // A vehicle that reports from a landmark is taken to be at that landmark.
  lemma SnapsHome(G: RoadGraph, d: Distance, home: int, error: real, reported: Coord, n: int)
    requires IsMetric(d) && Valid(G, d) && Separated(G, d, home, error) && d(reported, G.node[home].pos) <= error
    requires IsNearest(G, d, reported, n)
    ensures n == home
  {
    assert home in Elements(G.order);
    var i :| 0 <= i < |G.order| && G.order[i] == home;
    assert d(reported, G.node[n].pos) <= Off(G, d, reported, i);
    assert d(G.node[home].pos, G.node[n].pos) <= d(G.node[home].pos, reported) + d(reported, G.node[n].pos);
  }

  // A dispatch keeps a vehicle on the road, from its node through the whole route, if and
  // only if the route is empty, starts at that node or starts next to it.
  lemma DispatchStaysOnRoad(G: RoadGraph, v: Sim, route: seq<int>)
    requires forall i :: 0 <= i < |route| - 1 ==> Edge(G, route[i], route[i + 1])
    ensures (forall i :: var path := [v.nodeId] + Dispatched(v, route).route; 0 <= i < |path| - 1 ==>
        Edge(G, path[i], path[i + 1]))
            <==> route == [] || route[0] == v.nodeId || Edge(G, v.nodeId, route[0])
  {
    var path := [v.nodeId] + Dispatched(v, route).route;
    if route != [] {
      if route[0] == v.nodeId {
        assert path == route;
      } else {
        assert path[0] == v.nodeId && path[1] == route[0];
        assert forall i :: 0 < i < |path| ==> path[i] == route[i - 1];
      }
    }
  }

  // At its i-th node or on the road to the next, and, once ticked, driving unless it is at
  // the end of the path.
  ghost predicate Underway(v: Sim, path: seq<int>, i: nat, ticks: seq<TickInput>) {
    AtPlace(v, path, i) && OnEdge(v) && (ticks != [] ==> (v.state == Driving <==> i < |path| - 1))
  }

  // A vehicle at the start of an edge, left alone, keeps to its path and reaches the end.
  lemma Arrives(G: RoadGraph, d: Distance, v: Sim, path: seq<int>, ticks: seq<TickInput>, minSpeed: real)
    returns (places: seq<nat>)
    requires Known(G, v) && v.edgeProgress == 0.0 && path == [v.nodeId] + v.route
    requires minSpeed > 0.0 && Fast(ticks, minSpeed)
    ensures forall k :: 0 <= k < |path| ==> path[k] in G.node
    ensures Itinerary(G, d, v, ticks, path, places) && Underway(Drive(G, d, v, ticks), path, places[|ticks|], ticks)
    ensures ticks != [] ==> OnTheRoad(G, Drive(G, d, v, ticks))
    ensures |ticks| >= PathTicks(G, d, path, minSpeed) ==> places[|ticks|] == |path| - 1
  {
    places := StaysOnRoute(G, d, v, ticks, path);
    assert ticks[..|ticks|] == ticks;
    assert AtPlace(Drive(G, d, v, ticks), path, places[|ticks|]);
    hide Itinerary;
    RemainingShrinks(G, d, v, ticks, minSpeed);
    RemainingAtStart(G, d, v, path, minSpeed);
    if ticks != [] {
      DrivingMeansRoute(G, d, v, ticks);
    }
    if Drive(G, d, v, ticks).route != [] {
      RemainingPositive(G, d, Drive(G, d, v, ticks), minSpeed);
    }
  }

  lemma RemainingAtStart(G: RoadGraph, d: Distance, v: Sim, path: seq<int>, minSpeed: real)
    requires Known(G, v) && v.edgeProgress == 0.0 && path == [v.nodeId] + v.route && minSpeed > 0.0
    ensures forall k :: 0 <= k < |path| ==> path[k] in G.node
    ensures Remaining(G, d, v, minSpeed) == PathTicks(G, d, path, minSpeed)
  {
    assert path[1..] == v.route;
  }

  // A vehicle parked at a landmark reports its position, is chosen for a pickup, and gets
  // the dispatch command. Then its route starts at its own node; with no further command it
  // is at every later tick somewhere on that route, a shortest path whose hops are all
  // roads; and within a number of ticks computed from the road lengths and its minimum speed
  // it is parked at the pickup.
  lemma Delivers(G: RoadGraph, d: Distance, v: Sim, c: Candidate, error: real, pickup: int, partySize: int, cfg: Config,
                 x: Choice, ticks: seq<TickInput>, minSpeed: real)
    requires IsMetric(d) && Valid(G, d)
    requires v.route == [] && Separated(G, d, v.nodeId, error) && d(c.pos, G.node[v.nodeId].pos) <= error
    requires ChoiceOf(G, d, pickup, partySize, cfg, c, x)
    requires minSpeed > 0.0 && Fast(ticks, minSpeed)
    ensures x.startNode == v.nodeId && OptimalRoute(G, d, v.nodeId, pickup, x.route, x.roadKm)
    ensures Known(G, Dispatched(v, x.route)) && forall k :: 0 <= k < |x.route| ==> x.route[k] in G.node
    ensures ticks != [] ==> OnTheRoad(G, Drive(G, d, Dispatched(v, x.route), ticks))
    ensures exists places :: Itinerary(G, d, Dispatched(v, x.route), ticks, x.route, places)
                             && Underway(Drive(G, d, Dispatched(v, x.route), ticks), x.route, places[|ticks|], ticks)
    ensures |ticks| >= PathTicks(G, d, x.route, minSpeed) ==>
              Underway(Drive(G, d, Dispatched(v, x.route), ticks), x.route, |x.route| - 1, ticks)
              && Drive(G, d, Dispatched(v, x.route), ticks).nodeId == pickup
  {
    hide Minimal, IsNearest, RoadNetwork.Valid, IsMetric, Drive, Itinerary, OnTheRoad, PathTicks, Cost, Distinct;
    SnapsHome(G, d, v.nodeId, error, c.pos, x.startNode);
    WalkNodes(G, d, x.route, v.nodeId, pickup);
    assert [v.nodeId] + x.route[1..] == x.route;
    var places := Arrives(G, d, Dispatched(v, x.route), x.route, ticks, minSpeed);
  }

  // ---- after a stop ----

  // A stopped vehicle goes back to the last node it reached and waits there. It keeps its
  // position if and only if it stood at that node: with no route, at the very start of a road
  // or on one of no length.
  lemma {:induction false} StopReturns(G: RoadGraph, d: Distance, v: Sim, ticks: seq<TickInput>)
    requires Known(G, v) && ticks != []
    ensures var u := Drive(G, d, Stopped(v), ticks);
            u.nodeId == v.nodeId && u.route == [] && u.pos == G.node[v.nodeId].pos && u.state != Driving
    ensures OnTheRoad(G, v) ==>
              (Drive(G, d, Stopped(v), ticks).pos == v.pos
               <==> v.route == [] || v.edgeProgress == 0.0 || G.node[v.nodeId].pos == G.node[v.route[0]].pos)
  {
    var n := |ticks| - 1;
    if n > 0 {
      StopReturns(G, d, v, ticks[..n]);
    }
    if v.route != [] {
      AlongIsStart(G.node[v.nodeId].pos, G.node[v.route[0]].pos, v.edgeProgress);
    }
  }

  lemma AlongIsStart(a: Coord, b: Coord, p: real)
    ensures Along(a, b, p) == a <==> p == 0.0 || a == b
  {
    ZeroProduct(b.lat - a.lat, p);
    ZeroProduct(b.lon - a.lon, p);
  }

  lemma ZeroProduct(x: real, p: real)
    ensures x * p == 0.0 <==> x == 0.0 || p == 0.0
  {
  }

  lemma {:induction false} StoppedWaits(G: RoadGraph, d: Distance, v: Sim, ticks: seq<TickInput>)
    requires Known(G, v)
    ensures Drive(G, d, Stopped(v), ticks).nodeId == v.nodeId && Drive(G, d, Stopped(v), ticks).route == []
  {
    if ticks != [] {
      StoppedWaits(G, d, v, ticks[..|ticks| - 1]);
    }
  }

  // And it can be sent out again: the progress that stop leaves behind does no harm. At once
  // or however long it has waited, a dispatch from its node drives the whole new route, in
  // order, and brings it to the end within the ticks computed for that route.
  lemma RedispatchAfterStop(G: RoadGraph, d: Distance, v: Sim, idle: seq<TickInput>, route: seq<int>,
                            ticks: seq<TickInput>, minSpeed: real)
    returns (places: seq<nat>)
    requires Known(G, v)
    requires route != [] && route[0] == v.nodeId && forall k :: 0 <= k < |route| ==> route[k] in G.node
    requires minSpeed > 0.0 && Fast(ticks, minSpeed)
    ensures Known(G, Dispatched(Drive(G, d, Stopped(v), idle), route))
    ensures var u := Dispatched(Drive(G, d, Stopped(v), idle), route);
            && Itinerary(G, d, u, ticks, route, places)
            && Underway(Drive(G, d, u, ticks), route, places[|ticks|], ticks)
            && (|ticks| >= PathTicks(G, d, route, minSpeed) ==> Drive(G, d, u, ticks).nodeId == route[|route| - 1])
  {
    StoppedWaits(G, d, v, idle);
    var u := Dispatched(Drive(G, d, Stopped(v), idle), route);
    assert [v.nodeId] + route[1..] == route;
    hide Drive;
    places := Arrives(G, d, u, route, ticks, minSpeed);
  }
}
