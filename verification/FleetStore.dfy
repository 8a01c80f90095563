// createStore: availableCandidates and assignTrip as methods on the rows they read and
// change, one for each stretch of code between two awaits. Each is proved to be a step of
// the protocol in the module Dispatch, so what is proved there of every interleaving
// applies to them. The two calls chain these methods and are proved to be runs.
module FleetStore {
  import opened Basics
  import opened Dispatch

  // What Redis holds under a key: the list and when it expires.
  datatype Cached = Cached(vehicles: seq<string>, expires: int)

  ghost predicate SameCache(cache: map<nat, Cached>, entries: map<nat, Entry>) {
    cache.Keys == entries.Keys
    && forall k :: k in entries ==> cache[k] == Cached(entries[k].listing.vehicles, entries[k].writtenAt + 3)
  }

  // null, an exception, or the recorded ride.
  datatype Trip = Taken | Threw | Recorded

  class Store {
    const ro: Roster
    // rows of the primary, of what candidate lists are read from, of Redis and of Mongo
    var available: set<string>
    var rides: seq<Ride>
    var readable: set<string>
    var cache: map<nat, Cached>
    var documents: set<string>
    var now: int
    // the protocol state these rows belong to
    ghost var sys: System

    ghost predicate Valid()
      reads this
    {
      && available == sys.available && rides == sys.rides && documents == sys.docs && now == sys.now
      && SameCache(cache, sys.cache)
      && sys.replica <= |sys.rides|
      && readable == Snapshot(ro, sys.rides, if ro.replicated then sys.replica else |sys.rides|)
      && (!ro.replicated ==> readable == available)
    }

    constructor (ro: Roster, documents: set<string>, now: int)
      ensures Valid() && this.ro == ro && sys == InitialSystem(ro, documents, now)
    {
      this.ro := ro;
      available, rides, readable, cache := ro.initial, [], ro.initial, map[];
      this.documents, this.now := documents, now;
      sys := InitialSystem(ro, documents, now);
      new;
      assert Vehicles([]) == {};
    }

    // ---- handleRide, around the two calls ----

    // A request comes in.
    method Open(r: nat, passengers: nat)
      requires Valid() && !At(sys, r) && passengers >= 1
      modifies this`sys
      ensures sys.locks == old(sys).locks
      ensures Valid() && Enabled(ro, old(sys), Arrive(r, passengers))
      ensures sys == Next(ro, old(sys), Arrive(r, passengers))
      ensures At(sys, r) && sys.requests[r] == Request(passengers, Dispatch.Start)
    {
      sys := Next(ro, sys, Arrive(r, passengers));
    }

    // selectVehicle has chosen v from the list.
    method Pick(r: nat, v: string)
      requires Valid() && At(sys, r) && PcOf(sys, r).HasList? && v in PcOf(sys, r).listing.vehicles
      modifies this`sys
      ensures sys.locks == old(sys).locks
      ensures Valid() && Enabled(ro, old(sys), Choose(r, v)) && sys == Next(ro, old(sys), Choose(r, v))
      ensures At(sys, r) && PcOf(sys, r) == Chose(v)
    {
      sys := Next(ro, sys, Choose(r, v));
    }

    // The trip could not be routed: the exception reaches the client.
    method GiveUp(r: nat)
      requires Valid() && At(sys, r) && PcOf(sys, r).HasList?
      modifies this`sys
      ensures Valid() && Enabled(ro, old(sys), Fail(r)) && sys == Next(ro, old(sys), Fail(r))
      ensures At(sys, r) && PcOf(sys, r) == Done(Failed)
    {
      sys := Next(ro, sys, Fail(r));
    }

    // selectVehicle has found none that can reach the pickup.
    method PickNone(r: nat)
      requires Valid() && At(sys, r) && PcOf(sys, r).HasList?
      modifies this`sys
      ensures Valid() && Enabled(ro, old(sys), NoChoice(r)) && sys == Next(ro, old(sys), NoChoice(r))
      ensures At(sys, r) && PcOf(sys, r) == Done(NoneReachable)
    {
      sys := Next(ro, sys, NoChoice(r));
    }

    // ---- availableCandidates ----

    // redis.get; `works` says whether the call succeeds.
    method GetCached(r: nat, minSeats: nat, works: bool) returns (cached: Option<seq<string>>)
      requires Valid() && At(sys, r) && sys.requests[r] == Request(minSeats, Dispatch.Start)
      modifies this`sys
      ensures sys.locks == old(sys).locks
      ensures Valid() && Enabled(ro, old(sys), if cached.Some? then CacheHit(r) else CacheMiss(r, !works))
      ensures sys == Next(ro, old(sys), if cached.Some? then CacheHit(r) else CacheMiss(r, !works))
      ensures cached == if works && minSeats in cache && now < cache[minSeats].expires
                        then Some(cache[minSeats].vehicles) else None
      ensures At(sys, r)
      ensures cached.Some? ==> PcOf(sys, r) == AfterList(old(sys).cache[minSeats].listing)
      ensures cached.Some? ==> cached.value == old(sys).cache[minSeats].listing.vehicles
      ensures cached.None? ==> sys.requests[r] == Request(minSeats, Missed)
    {
      if Hit(cache, minSeats, now, works) {
        cached := Some(cache[minSeats].vehicles);
        sys := Next(ro, sys, CacheHit(r));
      } else {
        cached := None;
        sys := Next(ro, sys, CacheMiss(r, !works));
      }
    }

    // The SELECT: rows with enough seats that are available where it reads.
    method SelectRows(r: nat, minSeats: nat) returns (rows: set<string>)
      requires Valid() && At(sys, r) && sys.requests[r] == Request(minSeats, Missed)
      modifies this`sys
      ensures sys.locks == old(sys).locks
      ensures Valid() && Enabled(ro, old(sys), QueryRows(r)) && sys == Next(ro, old(sys), QueryRows(r))
      ensures forall v :: v in rows <==> v in readable && v in ro.seats && ro.seats[v] >= minSeats
      ensures !ro.replicated ==> forall v :: v in rows <==> v in available && v in ro.seats && ro.seats[v] >= minSeats
      ensures At(sys, r) && sys.requests[r].passengers == minSeats
      ensures rows == {} ==> PcOf(sys, r).Filling? && PcOf(sys, r).listing.vehicles == []
      ensures rows != {} ==> PcOf(sys, r).HasRows? && PcOf(sys, r).rows == rows
    {
      rows := WithSeats(ro, readable, minSeats);
      sys := Next(ro, sys, QueryRows(r));
    }

    // The find, in whatever order the documents come.
    method FindDocuments(r: nat, rows: set<string>) returns (found: seq<string>)
      requires Valid() && At(sys, r) && PcOf(sys, r).HasRows? && PcOf(sys, r).rows == rows
      modifies this`sys
      ensures sys.locks == old(sys).locks
      ensures Valid() && Enabled(ro, old(sys), FindDocs(r, found)) && sys == Next(ro, old(sys), FindDocs(r, found))
      ensures Elements(found) == rows * documents
      ensures forall v :: v in found <==> v in rows && v in documents
      ensures At(sys, r) && sys.requests[r].passengers == old(sys).requests[r].passengers
      ensures PcOf(sys, r).Filling? && PcOf(sys, r).listing.vehicles == found
    {
      found := ListOf(rows * documents);
      assert forall v :: v in found <==> v in Elements(found);
      sys := Next(ro, sys, FindDocs(r, found));
    }

    // redis.setex with the list just built.
    method SetCached(r: nat, minSeats: nat, candidates: seq<string>, works: bool)
      requires Valid() && At(sys, r) && sys.requests[r].passengers == minSeats
      requires PcOf(sys, r).Filling? && PcOf(sys, r).listing.vehicles == candidates
      modifies this`cache, this`sys
      ensures sys.locks == old(sys).locks
      ensures Valid() && Enabled(ro, old(sys), Fill(r, works)) && sys == Next(ro, old(sys), Fill(r, works))
      ensures At(sys, r) && PcOf(sys, r) == AfterList(PcOf(old(sys), r).listing)
      ensures cache == if works then old(cache)[minSeats := Cached(candidates, now + 3)] else old(cache)
    {
      if works {
        cache := cache[minSeats := Cached(candidates, now + CACHE_TTL_S)];
      }
      sys := Next(ro, sys, Fill(r, works));
    }

    // ---- assignTrip ----

    // The guarded UPDATE, once no other transaction holds the row: the row count.
    method GuardedUpdate(r: nat, v: string) returns (rowCount: nat)
      requires Valid() && At(sys, r) && PcOf(sys, r) == Chose(v) && v !in sys.locks
      modifies this`sys
      ensures Valid() && Enabled(ro, old(sys), Update(r)) && sys == Next(ro, old(sys), Update(r)) && At(sys, r)
      ensures rowCount == (if v in available then 1 else 0)
      ensures PcOf(sys, r) == if rowCount == 0 then Done(JustTaken) else Updated(v)
    {
      rowCount := if v in available then 1 else 0;
      sys := Next(ro, sys, Update(r));
    }

    // The INSERT, in the open transaction.
    method InsertRide(r: nat, v: string)
      requires Valid() && At(sys, r) && PcOf(sys, r) == Updated(v)
      modifies this`sys
      ensures Valid() && Enabled(ro, old(sys), Insert(r)) && sys == Next(ro, old(sys), Insert(r))
      ensures At(sys, r) && PcOf(sys, r) == Inserted(v)
    {
      sys := Next(ro, sys, Insert(r));
    }

    // ROLLBACK: the row lock goes, and no reader ever sees anything of the transaction.
    method Rollback(r: nat)
      requires Valid() && At(sys, r) && (PcOf(sys, r).Updated? || PcOf(sys, r).Inserted?)
      modifies this`sys
      ensures Valid() && Enabled(ro, old(sys), Fail(r)) && sys == Next(ro, old(sys), Fail(r))
      ensures At(sys, r) && PcOf(sys, r) == Done(Failed)
      ensures PcOf(old(sys), r).vehicle !in sys.locks
    {
      sys := Next(ro, sys, Fail(r));
    }

    // COMMIT: the status change and the ride become visible together, to the primary's
    // readers; a replica shows them when it replays them.
    method CommitTrip(r: nat, v: string)
      requires Valid() && At(sys, r) && PcOf(sys, r) == Inserted(v)
      modifies this`available, this`rides, this`readable, this`sys
      ensures Valid() && Enabled(ro, old(sys), Commit(r)) && sys == Next(ro, old(sys), Commit(r))
      ensures At(sys, r) && PcOf(sys, r) == Committed(v)
      ensures available == old(available) - {v} && rides == old(rides) + [Ride(r, v)]
      ensures readable == if ro.replicated then old(readable) else available
    {
      VehiclesGrow(rides, Ride(r, v));
      available := available - {v};
      rides := rides + [Ride(r, v)];
      if !ro.replicated {
        readable := readable - {v};
      }
      sys := Next(ro, sys, Commit(r));
      assert sys.rides[..old(sys).replica] == old(sys).rides[..old(sys).replica];
      assert sys.rides[..|sys.rides|] == sys.rides && old(sys).rides[..|old(sys).rides|] == old(sys).rides;
    }

    // The replica replays what it has received; the store itself never calls this.
    method Replay(version: nat)
      requires Valid() && ro.replicated && Enabled(ro, sys, Replicate(version))
      modifies this`readable, this`sys
      ensures Valid() && sys == Next(ro, old(sys), Replicate(version))
    {
      readable := Snapshot(ro, rides, version);
      sys := Next(ro, sys, Replicate(version));
    }

    // redis.del over the keys avail:1 to avail:7.
    method DeleteKeys(r: nat, works: bool)
      requires Valid() && At(sys, r) && PcOf(sys, r).Committed?
      modifies this`cache, this`sys
      ensures Valid() && Enabled(ro, old(sys), Invalidate(r, works)) && sys == Next(ro, old(sys), Invalidate(r, works))
      ensures At(sys, r) && PcOf(sys, r) == Done(Assigned(PcOf(old(sys), r).vehicle))
      ensures forall k :: k in cache <==> k in old(cache) && (!works || k < 1 || k > 7)
      ensures forall k :: k in cache ==> cache[k] == old(cache)[k]
    {
      if works {
        cache := WithoutKeys(cache);
      }
      sys := Next(ro, sys, Invalidate(r, works));
    }

    // ---- the two calls, uninterrupted ----

    // availableCandidates: what is cached, or the vehicles with enough seats and a document.
    method AvailableCandidates(r: nat, minSeats: nat, getWorks: bool, setWorks: bool)
      returns (candidates: seq<string>, ghost actions: seq<Action>)
      requires Valid() && At(sys, r) && sys.requests[r] == Request(minSeats, Dispatch.Start)
      modifies this`cache, this`sys
      ensures Valid() && Run(ro, old(sys), actions, sys) && At(sys, r) && sys.locks == old(sys).locks
      ensures PcOf(sys, r) == Done(NoneAvailable) <==> candidates == []
      ensures candidates != [] ==> PcOf(sys, r).HasList? && PcOf(sys, r).listing.vehicles == candidates
      ensures Hit(old(cache), minSeats, now, getWorks) ==>
          candidates == old(cache)[minSeats].vehicles && cache == old(cache)
      ensures !Hit(old(cache), minSeats, now, getWorks) ==>
                && (forall v :: v in candidates <==>
                      v in readable && v in ro.seats && ro.seats[v] >= minSeats && v in documents)
                && cache == if setWorks then old(cache)[minSeats := Cached(candidates, now + 3)] else old(cache)
    {
      hide Valid, Run, Next, Enabled;
      actions := [];
      NothingRun(ro, sys);
      var cached := GetCached(r, minSeats, getWorks);
      actions := Then(ro, old(sys), actions, old(sys), if cached.Some? then CacheHit(r) else CacheMiss(r, !getWorks));
      if cached.Some? {
        return cached.value, actions;
      }
      ghost var before := sys;
      var rows := SelectRows(r, minSeats);
      actions := Then(ro, old(sys), actions, before, QueryRows(r));
      if rows == {} {
        candidates := [];
        assert forall v :: v !in candidates;
      } else {
        before := sys;
        candidates := FindDocuments(r, rows);
        actions := Then(ro, old(sys), actions, before, FindDocs(r, candidates));
      }
      before := sys;
      SetCached(r, minSeats, candidates, setWorks);
      actions := Then(ro, old(sys), actions, before, Fill(r, setWorks));
    }

    // assignTrip, once no other transaction holds the row: Taken if the vehicle is no longer
    // available; Threw if the INSERT fails, and then nothing is changed; otherwise the ride
    // is recorded, the vehicle is no longer available, and keys 1 to 7 are cleared.
    method AssignTrip(r: nat, v: string, insertWorks: bool, delWorks: bool)
      returns (trip: Trip, ghost actions: seq<Action>)
      requires Valid() && At(sys, r) && PcOf(sys, r) == Chose(v) && v !in sys.locks
      modifies this`available, this`rides, this`readable, this`cache, this`sys
      ensures Valid() && Run(ro, old(sys), actions, sys) && At(sys, r)
      ensures trip == if v !in old(available) then Taken else if !insertWorks then Threw else Recorded
      ensures PcOf(sys, r) == Done(match trip case Taken => JustTaken case Threw => Failed case Recorded => Assigned(v))
      ensures trip.Recorded? ==> available == old(available) - {v} && rides == old(rides) + [Ride(r, v)]
      ensures trip.Recorded? ==> forall k :: k in cache <==> k in old(cache) && (!delWorks || k < 1 || k > 7)
      ensures forall k :: k in cache ==> k in old(cache) && cache[k] == old(cache)[k]
      ensures !trip.Recorded? ==>
          available == old(available) && rides == old(rides) && readable == old(readable) && cache == old(cache)
    {
      hide Valid, Run, Next, Enabled;
      actions := [];
      NothingRun(ro, sys);
      var rowCount := GuardedUpdate(r, v);
      actions := Then(ro, old(sys), actions, old(sys), Update(r));
      if rowCount == 0 {
        return Taken, actions;
      }
      ghost var before := sys;
      if !insertWorks {
        Rollback(r);
        actions := Then(ro, old(sys), actions, before, Fail(r));
        return Threw, actions;
      }
      InsertRide(r, v);
      actions := Then(ro, old(sys), actions, before, Insert(r));
      before := sys;
      CommitTrip(r, v);
      actions := Then(ro, old(sys), actions, before, Commit(r));
      before := sys;
      DeleteKeys(r, delWorks);
      actions := Then(ro, old(sys), actions, before, Invalidate(r, delWorks));
      trip := Recorded;
    }
  }

  // A get that finds a live entry.
  predicate Hit(cache: map<nat, Cached>, key: nat, now: int, works: bool) {
    works && key in cache && now < cache[key].expires
  }

  // The rows among vs with enough seats.
  method WithSeats(ro: Roster, vs: set<string>, minSeats: nat) returns (rows: set<string>)
    ensures rows == SeatsAtLeast(ro, vs, minSeats)
    ensures forall v :: v in rows <==> v in vs && v in ro.seats && ro.seats[v] >= minSeats
  {
    rows := {};
    var todo := vs;
    while todo != {}
      invariant todo <= vs
      invariant forall v :: v in rows <==> v in SeatsAtLeast(ro, vs, minSeats) && v !in todo
      decreases |todo|
    {
      var v :| v in todo;
      if v in ro.seats && ro.seats[v] >= minSeats {
        rows := rows + {v};
      }
      todo := todo - {v};
    }
  }

  // The elements of a set in some order.
  method ListOf(vs: set<string>) returns (found: seq<string>)
    ensures Elements(found) == vs
  {
    found := [];
    var todo := vs;
    while todo != {}
      invariant todo <= vs && Elements(found) == vs - todo
      decreases |todo|
    {
      var v :| v in todo;
      ElementsAppend(found, v);
      found := found + [v];
      todo := todo - {v};
    }
  }

  method WithoutKeys(before: map<nat, Cached>) returns (cache: map<nat, Cached>)
    ensures cache == Invalidated(before)
    ensures forall k :: k in cache <==> k in before && (k < 1 || k > 7)
    ensures forall k :: k in cache ==> cache[k] == before[k]
  {
    cache := before;
    for i := 0 to MAX_CACHEABLE_SEATS
      invariant cache == map k | k in before && !(1 <= k <= i) :: before[k]
    {
      cache := cache - {i + 1};
    }
  }
}
