// Ride requests under concurrency: handleRide over store.js. Many requests interleave over
// the primary database, a replica that lags behind it, a cache with expiry and the position
// documents; a step is what happens between two awaits.
module Dispatch {
  import opened Basics

  // The roster: seats of each vehicle, the vehicles available at the start, and whether
  // candidate lists are read from a replica.
  datatype Roster = Roster(seats: map<string, nat>, initial: set<string>, replicated: bool)

  datatype Ride = Ride(request: nat, vehicle: string)

  // A cached list. `version` is the number of rides visible to the Postgres read behind it,
  // `seen` the vehicles whose position document its Mongo read could see, `stamp` the step
  // at which it was written.
  datatype Listing = Listing(vehicles: seq<string>, version: nat, seen: set<string>)

  datatype Entry = Entry(listing: Listing, writtenAt: int, stamp: nat)

  const CACHE_TTL_S := 3
  const MAX_CACHEABLE_SEATS := 7

  datatype Response = Assigned(vehicle: string) | NoneAvailable | NoneReachable | JustTaken | Failed

  datatype Pc =
    | Start
    | Missed
    | HasRows(version: nat, rows: set<string>)
    | Filling(listing: Listing)
    | HasList(listing: Listing)
    | Chose(vehicle: string)
    | Updated(vehicle: string)
    | Inserted(vehicle: string)
    | Committed(vehicle: string)
    | Done(response: Response)

  datatype Request = Request(passengers: nat, pc: Pc)

  // `available` is the committed status of the primary; `locks` the rows held by open
  // transactions; `clearedAt` the step at which a ride's cache invalidation succeeded.
  datatype System = System(available: set<string>, rides: seq<Ride>, locks: map<string, nat>, replica: nat,
                           docs: set<string>, cache: map<nat, Entry>, now: int, stamp: nat,
                           clearedAt: map<string, nat>, requests: map<nat, Request>)

  function Vehicles(rides: seq<Ride>): set<string> {
    set k | 0 <= k < |rides| :: rides[k].vehicle
  }

  // The available vehicles as of the first n rides.
  function Snapshot(ro: Roster, rides: seq<Ride>, n: nat): set<string>
    requires n <= |rides|
  {
    ro.initial - Vehicles(rides[..n])
  }

  function SeatsAtLeast(ro: Roster, vs: set<string>, k: nat): set<string> {
    set v | v in vs && v in ro.seats && ro.seats[v] >= k
  }

  predicate Live(e: Entry, now: int) {
    now < e.writtenAt + CACHE_TTL_S
  }

  // redis.del of the keys avail:1 to avail:7
  function Invalidated<T>(cache: map<nat, T>): map<nat, T> {
    map k | k in cache && !(1 <= k <= MAX_CACHEABLE_SEATS) :: cache[k]
  }

  // The row that a request's open transaction has updated.
  predicate Holds(pc: Pc, v: string) {
    (pc.Updated? || pc.Inserted?) && pc.vehicle == v
  }

  // ---- steps ----

  // The first group is the code; UPDATE takes the row lock, waits while another transaction
  // holds it, and checks the status it then finds committed (section 13.2.1 of the PostgreSQL
  // documentation). CommitUnsure is a COMMIT whose outcome the client never learns. The last
  // group is the environment.
  datatype Action =
    | Arrive(r: nat, passengers: nat)
    | CacheHit(r: nat)
    | CacheMiss(r: nat, failed: bool)
    | QueryRows(r: nat)
    | FindDocs(r: nat, found: seq<string>)
    | Fill(r: nat, ok: bool)
    | Choose(r: nat, vehicle: string)
    | NoChoice(r: nat)
    | Update(r: nat)
    | Insert(r: nat)
    | Commit(r: nat)
    | CommitUnsure(r: nat, applied: bool)
    | Invalidate(r: nat, ok: bool)
    | Fail(r: nat)
    | Replicate(version: nat)
    | Report(docs: set<string>)
    | Wait(seconds: nat)
    | Evict(key: nat)

  predicate At(s: System, r: nat) {
    r in s.requests
  }

  function PcOf(s: System, r: nat): Pc
    requires At(s, r)
  {
    s.requests[r].pc
  }

  predicate Enabled(ro: Roster, s: System, a: Action) {
    match a
    case Arrive(r, passengers) => !At(s, r) && passengers >= 1
    case CacheHit(r) =>
      At(s, r) && PcOf(s, r).Start?
      && s.requests[r].passengers in s.cache && Live(s.cache[s.requests[r].passengers], s.now)
    case CacheMiss(r, failed) =>
      At(s, r) && PcOf(s, r).Start?
      && (failed || s.requests[r].passengers !in s.cache || !Live(s.cache[s.requests[r].passengers], s.now))
    case QueryRows(r) => At(s, r) && PcOf(s, r).Missed? && s.replica <= |s.rides|
    case FindDocs(r, found) =>
      At(s, r) && PcOf(s, r).HasRows? && Elements(found) == PcOf(s, r).rows * s.docs
    case Fill(r, _) => At(s, r) && PcOf(s, r).Filling?
    case Choose(r, v) => At(s, r) && PcOf(s, r).HasList? && v in PcOf(s, r).listing.vehicles
    case NoChoice(r) => At(s, r) && PcOf(s, r).HasList?
    case Update(r) => At(s, r) && PcOf(s, r).Chose? && PcOf(s, r).vehicle !in s.locks
    case Insert(r) => At(s, r) && PcOf(s, r).Updated?
    case Commit(r) => At(s, r) && PcOf(s, r).Inserted?
    case CommitUnsure(r, _) => At(s, r) && PcOf(s, r).Inserted?
    case Invalidate(r, _) => At(s, r) && PcOf(s, r).Committed?
    case Fail(r) => At(s, r) && !PcOf(s, r).Done?
    case Replicate(version) => s.replica <= version <= |s.rides|
    case Report(_) => true
    case Wait(_) => true
    case Evict(_) => true
  }

  function Goto(s: System, r: nat, pc: Pc): System
    requires At(s, r)
  {
    s.(requests := s.requests[r := s.requests[r].(pc := pc)])
  }

  function AfterList(listing: Listing): Pc {
    if listing.vehicles == [] then Done(NoneAvailable) else HasList(listing)
  }

  function Release(s: System, r: nat): System
    requires At(s, r)
  {
    var pc := PcOf(s, r);
    if pc.Updated? || pc.Inserted? then s.(locks := s.locks - {pc.vehicle}) else s
  }

  function CommitRide(s: System, r: nat, pc: Pc): System
    requires At(s, r) && PcOf(s, r).Inserted?
  {
    var v := PcOf(s, r).vehicle;
    Goto(Release(s, r), r, pc).(available := s.available - {v}, rides := s.rides + [Ride(r, v)])
  }

  function Step(ro: Roster, s: System, a: Action): System
    requires Enabled(ro, s, a)
  {
    match a
    case Arrive(r, passengers) => s.(requests := s.requests[r := Request(passengers, Start)])
    case CacheHit(r) => Goto(s, r, AfterList(s.cache[s.requests[r].passengers].listing))
    case CacheMiss(r, _) => Goto(s, r, Missed)
    case QueryRows(r) =>
      var version := if ro.replicated then s.replica else |s.rides|;
      var rows := SeatsAtLeast(ro, Snapshot(ro, s.rides, version), s.requests[r].passengers);
      // with no rows the Mongo read is skipped and an empty list is cached
      Goto(s, r, if rows == {} then Filling(Listing([], version, s.docs)) else HasRows(version, rows))
    case FindDocs(r, found) => Goto(s, r, Filling(Listing(found, PcOf(s, r).version, s.docs)))
    case Fill(r, ok) =>
      var listing := PcOf(s, r).listing;
      Goto(s, r, AfterList(listing)).(
        cache := if ok then s.cache[s.requests[r].passengers := Entry(listing, s.now, s.stamp)] else s.cache)
    case Choose(r, v) => Goto(s, r, Chose(v))
    case NoChoice(r) => Goto(s, r, Done(NoneReachable))
    case Update(r) =>
      var v := PcOf(s, r).vehicle;
      if v in s.available then Goto(s, r, Updated(v)).(locks := s.locks[v := r]) else Goto(s, r, Done(JustTaken))
    case Insert(r) => Goto(s, r, Inserted(PcOf(s, r).vehicle))
    case Commit(r) => CommitRide(s, r, Committed(PcOf(s, r).vehicle))
    case CommitUnsure(r, applied) =>
      if applied then CommitRide(s, r, Done(Failed)) else Goto(Release(s, r), r, Done(Failed))
    case Invalidate(r, ok) =>
      var v := PcOf(s, r).vehicle;
      var t := Goto(s, r, Done(Assigned(v)));
      if ok then t.(cache := Invalidated(s.cache), clearedAt := s.clearedAt[v := s.stamp]) else t
    case Fail(r) => Goto(Release(s, r), r, Done(Failed))
    case Replicate(version) => s.(replica := version)
    case Report(docs) => s.(docs := docs)
    case Wait(seconds) => s.(now := s.now + seconds)
    case Evict(key) => s.(cache := s.cache - {key})
  }

  function Next(ro: Roster, s: System, a: Action): System
    requires Enabled(ro, s, a)
  {
    Step(ro, s, a).(stamp := s.stamp + 1)
  }

  function InitialSystem(ro: Roster, docs: set<string>, now: int): System {
    System(ro.initial, [], map[], 0, docs, map[], now, 0, map[], map[])
  }

  // ---- no double dispatch ----

  // Each vehicle is on at most one ride, and the vehicles available at the start are those
  // still available and those on rides.
  ghost predicate Books(ro: Roster, s: System) {
    && (forall i, j :: 0 <= i < j < |s.rides| ==> s.rides[i].vehicle != s.rides[j].vehicle)
    && Vehicles(s.rides) <= ro.initial
    && s.available == ro.initial - Vehicles(s.rides)
    && s.replica <= |s.rides|
  }

  // A row lock is held by exactly the transaction that updated the row, and only while the
  // vehicle is still available to everyone else.
  ghost predicate Locking(s: System) {
    && (forall v :: v in s.locks ==> v in s.available && HoldsAt(s, s.locks[v], v))
    && (forall r, v :: HoldsAt(s, r, v) ==> v in s.locks && s.locks[v] == r)
  }

  ghost predicate HoldsAt(s: System, r: nat, v: string) {
    At(s, r) && Holds(PcOf(s, r), v)
  }

  lemma VehiclesGrow(rides: seq<Ride>, x: Ride)
    ensures Vehicles(rides + [x]) == Vehicles(rides) + {x.vehicle}
  {
    forall v | v in Vehicles(rides) + {x.vehicle} ensures v in Vehicles(rides + [x]) {
      if v in Vehicles(rides) {
        var k :| 0 <= k < |rides| && rides[k].vehicle == v;
        assert (rides + [x])[k].vehicle == v;
      } else {
        assert (rides + [x])[|rides|].vehicle == v;
      }
    }
  }

  predicate Commits(a: Action) {
    a.Commit? || (a.CommitUnsure? && a.applied)
  }

  lemma StepBooks(ro: Roster, s: System, a: Action)
    requires Books(ro, s) && Locking(s) && Enabled(ro, s, a)
    ensures Books(ro, Next(ro, s, a))
  {
    if Commits(a) {
      var v := PcOf(s, a.r).vehicle;
      assert HoldsAt(s, a.r, v);
      CommitBooks(ro, s, a.r, v);
    }
  }

  lemma CommitBooks(ro: Roster, s: System, r: nat, v: string)
    requires Books(ro, s) && v in s.available
    ensures forall t: System ::
              t.available == s.available - {v} && t.rides == s.rides + [Ride(r, v)] && t.replica == s.replica ==>
                Books(ro, t)
  {
    VehiclesGrow(s.rides, Ride(r, v));
    forall k | 0 <= k < |s.rides| ensures s.rides[k].vehicle != v {
      assert s.rides[k].vehicle in Vehicles(s.rides);
    }
  }

  // Request r holds the row of v, or, for None, no row.
  ghost predicate HoldsJust(s: System, r: nat, row: Option<string>) {
    forall v :: HoldsAt(s, r, v) <==> row == Some(v)
  }

  ghost predicate OthersKeep(s: System, t: System, r: nat) {
    forall q :: q != r ==> (At(t, q) <==> At(s, q)) && (At(s, q) ==> PcOf(t, q) == PcOf(s, q))
  }

  lemma LockingKept(s: System, t: System, r: nat, row: Option<string>)
    requires Locking(s) && OthersKeep(s, t, r) && HoldsJust(s, r, row) && HoldsJust(t, r, row)
    requires t.locks == s.locks && t.available == s.available
    ensures Locking(t)
  {
    forall v | v in t.locks ensures v in t.available && HoldsAt(t, t.locks[v], v) {
      assert HoldsAt(s, s.locks[v], v);
    }
    forall q, v | HoldsAt(t, q, v) ensures v in t.locks && t.locks[v] == q {
      assert HoldsAt(s, q, v);
    }
  }

  lemma LockingTaken(s: System, t: System, r: nat, v: string)
    requires Locking(s) && OthersKeep(s, t, r) && HoldsJust(s, r, None) && HoldsJust(t, r, Some(v))
    requires v !in s.locks && v in s.available && t.locks == s.locks[v := r] && t.available == s.available
    ensures Locking(t)
  {
    forall u | u in t.locks ensures u in t.available && HoldsAt(t, t.locks[u], u) {
      if u != v {
        assert HoldsAt(s, s.locks[u], u);
      }
    }
    forall q, u | HoldsAt(t, q, u) ensures u in t.locks && t.locks[u] == q {
      if q != r {
        assert HoldsAt(s, q, u);
      }
    }
  }

  lemma LockingReleased(s: System, t: System, r: nat, v: string)
    requires Locking(s) && OthersKeep(s, t, r) && HoldsJust(s, r, Some(v)) && HoldsJust(t, r, None)
    requires t.locks == s.locks - {v} && s.available - {v} <= t.available
    ensures Locking(t)
  {
    assert HoldsAt(s, r, v);
    forall u | u in t.locks ensures u in t.available && HoldsAt(t, t.locks[u], u) {
      assert HoldsAt(s, s.locks[u], u);
    }
    forall q, u | HoldsAt(t, q, u) ensures u in t.locks && t.locks[u] == q {
      assert HoldsAt(s, q, u);
    }
  }

  lemma StepLocking(ro: Roster, s: System, a: Action)
    requires Locking(s) && Enabled(ro, s, a)
    ensures Locking(Next(ro, s, a))
  {
    if a.Update? {
      StepLockingUpdate(ro, s, a.r);
    } else if a.Insert? || a.Commit? || a.CommitUnsure? {
      StepLockingEnd(ro, s, a);
    } else if a.Fail? {
      StepLockingFail(s, Next(ro, s, a), a.r);
    } else {
      QuietStep(ro, s, a);
      LockingKept(s, Next(ro, s, a), if Environment(a) then 0 else a.r, if Environment(a) then RowOf(s, 0) else None);
    }
  }

  predicate Environment(a: Action) {
    a.Replicate? || a.Report? || a.Wait? || a.Evict?
  }

  ghost function RowOf(s: System, r: nat): Option<string> {
    if At(s, r) && (PcOf(s, r).Updated? || PcOf(s, r).Inserted?) then Some(PcOf(s, r).vehicle) else None
  }

  // All other steps leave rows and rides alone.
  lemma QuietStep(ro: Roster, s: System, a: Action)
    requires Enabled(ro, s, a) && !(a.Update? || a.Insert? || a.Commit? || a.CommitUnsure? || a.Fail?)
    ensures var t := Next(ro, s, a); t.locks == s.locks && t.available == s.available && t.rides == s.rides
    ensures !Environment(a) ==>
        OthersKeep(s, Next(ro, s, a), a.r) && HoldsJust(s, a.r, None) && HoldsJust(Next(ro, s, a), a.r, None)
    ensures Environment(a) ==> Next(ro, s, a).requests == s.requests
  {
  }

  lemma StepLockingUpdate(ro: Roster, s: System, r: nat)
    requires Locking(s) && Enabled(ro, s, Update(r))
    ensures Locking(Next(ro, s, Update(r)))
  {
    var v := PcOf(s, r).vehicle;
    if v in s.available {
      LockingTaken(s, Next(ro, s, Update(r)), r, v);
    } else {
      LockingKept(s, Next(ro, s, Update(r)), r, None);
    }
  }

  lemma StepLockingEnd(ro: Roster, s: System, a: Action)
    requires Locking(s) && Enabled(ro, s, a) && (a.Insert? || a.Commit? || a.CommitUnsure?)
    ensures Locking(Next(ro, s, a))
  {
    var v := PcOf(s, a.r).vehicle;
    if a.Insert? {
      LockingKept(s, Next(ro, s, a), a.r, Some(v));
    } else {
      LockingReleased(s, Next(ro, s, a), a.r, v);
    }
  }

  lemma StepLockingFail(s: System, t: System, r: nat)
    requires Locking(s) && At(s, r) && t == Goto(Release(s, r), r, Done(Failed)).(stamp := s.stamp + 1)
    ensures Locking(t)
  {
    var pc := PcOf(s, r);
    if pc.Updated? || pc.Inserted? {
      LockingReleased(s, t, r, pc.vehicle);
    } else {
      LockingKept(s, t, r, None);
    }
  }

  // ---- candidate lists ----

  // Exactly the vehicles with k seats that were available as of the Postgres read and whose
  // document the Mongo read could see.
  ghost predicate ListingOk(ro: Roster, rides: seq<Ride>, l: Listing, k: nat) {
    l.version <= |rides| && Elements(l.vehicles) == SeatsAtLeast(ro, Snapshot(ro, rides, l.version), k) * l.seen
  }

  ghost predicate RequestOk(ro: Roster, s: System, q: Request) {
    && q.passengers >= 1
    && match q.pc
       case HasRows(version, rows) =>
         version <= |s.rides| && rows == SeatsAtLeast(ro, Snapshot(ro, s.rides, version), q.passengers)
       case Filling(l) => ListingOk(ro, s.rides, l, q.passengers)
       case HasList(l) => ListingOk(ro, s.rides, l, q.passengers)
       case Chose(v) => Seats(ro, v, q.passengers)
       case Updated(v) => Seats(ro, v, q.passengers)
       case Inserted(v) => Seats(ro, v, q.passengers)
       case Committed(v) => Seats(ro, v, q.passengers)
       case Done(response) => response.Assigned? ==> Seats(ro, response.vehicle, q.passengers)
       case _ => true
  }

  predicate Seats(ro: Roster, v: string, k: nat) {
    v in ro.seats && ro.seats[v] >= k
  }

  ghost predicate Lists(ro: Roster, s: System) {
    && s.replica <= |s.rides|
    && (forall k :: k in s.cache ==> k >= 1 && ListingOk(ro, s.rides, s.cache[k].listing, k))
    && (forall r :: r in s.requests ==> RequestOk(ro, s, s.requests[r]))
  }

  lemma ListingKept(ro: Roster, rides: seq<Ride>, x: Ride, l: Listing, k: nat)
    requires ListingOk(ro, rides, l, k)
    ensures ListingOk(ro, rides + [x], l, k)
  {
    assert (rides + [x])[..l.version] == rides[..l.version];
  }

  lemma RequestKept(ro: Roster, s: System, t: System, q: Request)
    requires RequestOk(ro, s, q) && s.rides <= t.rides
    ensures RequestOk(ro, t, q)
  {
    if q.pc.HasRows? {
      assert t.rides[..q.pc.version] == s.rides[..q.pc.version];
    } else if q.pc.Filling? || q.pc.HasList? {
      assert t.rides[..q.pc.listing.version] == s.rides[..q.pc.listing.version];
    }
  }

  // What the step makes of its own request.
  lemma OwnRequest(ro: Roster, s: System, a: Action)
    requires Lists(ro, s) && Enabled(ro, s, a) && !Environment(a) && !Commits(a)
    ensures a.r in Next(ro, s, a).requests && RequestOk(ro, s, Next(ro, s, a).requests[a.r])
  {
    if a.CacheHit? || a.QueryRows? || a.FindDocs? || a.Fill? || a.Choose? {
      OwnListing(ro, s, a);
    } else if At(s, a.r) {
      assert RequestOk(ro, s, s.requests[a.r]);
    }
  }

  lemma OwnListing(ro: Roster, s: System, a: Action)
    requires Lists(ro, s) && Enabled(ro, s, a) && (a.CacheHit? || a.QueryRows? || a.FindDocs? || a.Fill? || a.Choose?)
    ensures RequestOk(ro, s, Next(ro, s, a).requests[a.r])
  {
    assert RequestOk(ro, s, s.requests[a.r]);
    if a.CacheHit? {
      assert ListingOk(ro, s.rides, s.cache[s.requests[a.r].passengers].listing, s.requests[a.r].passengers);
    } else if a.Choose? {
      assert a.vehicle in Elements(PcOf(s, a.r).listing.vehicles);
    } else if a.QueryRows? {
      assert Elements<string>([]) == {};
    }
  }

  lemma StepLists(ro: Roster, s: System, a: Action)
    requires Lists(ro, s) && Enabled(ro, s, a)
    ensures Lists(ro, Next(ro, s, a))
  {
    var t := Next(ro, s, a);
    if Commits(a) {
      StepListsCommit(ro, s, a);
    } else {
      if !Environment(a) {
        OwnRequest(ro, s, a);
      }
      StepListsQuiet(ro, s, a);
    }
  }

  lemma StepListsCommit(ro: Roster, s: System, a: Action)
    requires Lists(ro, s) && Enabled(ro, s, a) && Commits(a)
    ensures Lists(ro, Next(ro, s, a))
  {
    var t := Next(ro, s, a);
    var x := Ride(a.r, PcOf(s, a.r).vehicle);
    forall k | k in t.cache ensures k >= 1 && ListingOk(ro, t.rides, t.cache[k].listing, k) {
      ListingKept(ro, s.rides, x, s.cache[k].listing, k);
    }
    forall r | r in t.requests ensures RequestOk(ro, t, t.requests[r]) {
      assert RequestOk(ro, s, s.requests[r]);
      RequestKept(ro, s, t, s.requests[r]);
    }
  }

  lemma StepListsQuiet(ro: Roster, s: System, a: Action)
    requires Lists(ro, s) && Enabled(ro, s, a) && !Commits(a)
    requires !Environment(a) ==> a.r in Next(ro, s, a).requests && RequestOk(ro, s, Next(ro, s, a).requests[a.r])
    ensures Lists(ro, Next(ro, s, a))
  {
    var t := Next(ro, s, a);
    StepCache(ro, s, a);
    forall r | r in t.requests ensures RequestOk(ro, t, t.requests[r]) {
      if Environment(a) || r != a.r {
        assert t.requests[r] == s.requests[r];
      }
      RequestKept(ro, s, t, t.requests[r]);
    }
  }

  lemma StepCache(ro: Roster, s: System, a: Action)
    requires Lists(ro, s) && Enabled(ro, s, a) && !Commits(a)
    ensures var t := Next(ro, s, a); t.rides == s.rides && t.replica <= |t.rides|
    ensures forall k :: k in Next(ro, s, a).cache ==>
        k >= 1 && ListingOk(ro, s.rides, Next(ro, s, a).cache[k].listing, k)
  {
    if a.Fill? {
      assert RequestOk(ro, s, s.requests[a.r]);
    }
  }

  // ---- responses ----

  // The transaction committed, and its response carries a ride of its own.
  ghost predicate HasRide(s: System, r: nat, v: string) {
    exists i :: 0 <= i < |s.rides| && s.rides[i] == Ride(r, v)
  }

  ghost predicate Booked(s: System, r: nat) {
    r in s.requests &&
    match s.requests[r].pc
    case Committed(v) => HasRide(s, r, v)
    case Done(response) => response.Assigned? ==> HasRide(s, r, response.vehicle)
    case _ => true
  }

  ghost predicate AllBooked(s: System) {
    forall r :: r in s.requests ==> Booked(s, r)
  }

  lemma StepBooked(ro: Roster, s: System, a: Action)
    requires AllBooked(s) && Enabled(ro, s, a)
    ensures AllBooked(Next(ro, s, a))
  {
    var t := Next(ro, s, a);
    if !Environment(a) {
      OwnBooked(ro, s, a);
    }
    RidesGrow(ro, s, a);
    forall r | r in t.requests && (Environment(a) || r != a.r) ensures Booked(t, r) {
      OthersUnchanged(ro, s, a, r);
      hide Next;
      RideKept(s, t, r);
    }
  }

  lemma RidesGrow(ro: Roster, s: System, a: Action)
    requires Enabled(ro, s, a)
    ensures s.rides <= Next(ro, s, a).rides
  {
  }

  lemma OthersUnchanged(ro: Roster, s: System, a: Action, r: nat)
    requires Enabled(ro, s, a) && r in Next(ro, s, a).requests && (Environment(a) || r != a.r)
    ensures r in s.requests && Next(ro, s, a).requests[r] == s.requests[r]
  {
  }

  lemma OwnBooked(ro: Roster, s: System, a: Action)
    requires AllBooked(s) && Enabled(ro, s, a) && !Environment(a)
    ensures Booked(Next(ro, s, a), a.r)
  {
    if Commits(a) {
      assert Next(ro, s, a).rides[|s.rides|] == Ride(a.r, PcOf(s, a.r).vehicle);
    } else if a.Invalidate? {
      assert Booked(s, a.r);
    }
  }

  lemma RideKept(s: System, t: System, r: nat)
    requires s.rides <= t.rides && Booked(s, r) && r in t.requests && t.requests[r] == s.requests[r]
    ensures Booked(t, r)
  {
    forall v | HasRide(s, r, v) ensures HasRide(t, r, v) {
      var i :| 0 <= i < |s.rides| && s.rides[i] == Ride(r, v);
      assert t.rides[i] == Ride(r, v);
    }
  }

  // ---- every run ----

  ghost predicate Inv(ro: Roster, s: System) {
    Books(ro, s) && Locking(s) && Lists(ro, s) && AllBooked(s) && Cleared(ro, s)
  }

  ghost predicate Run(ro: Roster, s: System, actions: seq<Action>, t: System)
    decreases |actions|
  {
    if actions == [] then s == t
    else Enabled(ro, s, actions[0]) && Run(ro, Next(ro, s, actions[0]), actions[1..], t)
  }

  lemma StepInv(ro: Roster, s: System, a: Action)
    requires Inv(ro, s) && Enabled(ro, s, a)
    ensures Inv(ro, Next(ro, s, a))
  {
    hide Books, Locking, Lists, AllBooked, Cleared, Next, Enabled;
    StepBooks(ro, s, a);
    StepLocking(ro, s, a);
    StepLists(ro, s, a);
    StepBooked(ro, s, a);
    StepCleared(ro, s, a);
  }

  lemma {:induction false} RunInv(ro: Roster, s: System, actions: seq<Action>, t: System)
    requires Inv(ro, s) && Run(ro, s, actions, t)
    ensures Inv(ro, t)
    decreases |actions|
  {
    hide Inv, Next, Enabled;
    if actions != [] {
      StepInv(ro, s, actions[0]);
      RunInv(ro, Next(ro, s, actions[0]), actions[1..], t);
    }
  }

  lemma InitialInv(ro: Roster, docs: set<string>, now: int)
    ensures Inv(ro, InitialSystem(ro, docs, now))
  {
  }

  // Every reachable state satisfies the invariant.
  lemma Reached(ro: Roster, docs: set<string>, now: int, actions: seq<Action>, s: System)
    requires Run(ro, InitialSystem(ro, docs, now), actions, s)
    ensures Inv(ro, s)
  {
    InitialInv(ro, docs, now);
    RunInv(ro, InitialSystem(ro, docs, now), actions, s);
  }

  // However far the replica lags and whichever transactions roll back: no vehicle is ever on
  // two rides, and the vehicles available at the start are exactly those still available and
  // those on rides, each ride taking one.
  lemma NoDoubleDispatch(ro: Roster, docs: set<string>, now: int, actions: seq<Action>, s: System)
    requires Run(ro, InitialSystem(ro, docs, now), actions, s)
    ensures forall i, j :: 0 <= i < j < |s.rides| ==> s.rides[i].vehicle != s.rides[j].vehicle
    ensures s.available !! Vehicles(s.rides) && s.available + Vehicles(s.rides) == ro.initial
    ensures |s.available| + |s.rides| == |ro.initial|
  {
    Reached(ro, docs, now, actions, s);
    hide Run, Lists, Cleared, Locking, AllBooked;
    BooksBalance(ro, s);
  }

  lemma {:induction false} RunBooks(ro: Roster, s: System, actions: seq<Action>, t: System)
    requires Books(ro, s) && Locking(s) && Run(ro, s, actions, t)
    ensures Books(ro, t) && Locking(t)
    decreases |actions|
  {
    hide Books, Locking, Next, Enabled;
    if actions != [] {
      StepBooks(ro, s, actions[0]);
      StepLocking(ro, s, actions[0]);
      RunBooks(ro, Next(ro, s, actions[0]), actions[1..], t);
    }
  }

  // And safety asks nothing of the lists: whatever the caches hold and whatever vehicles the
  // requests have been offered, from balanced books and consistent row locks no run puts a
  // vehicle on two rides, and the rides it adds are a run of the specification below.
  lemma SafeWhateverIsCached(ro: Roster, s: System, actions: seq<Action>, t: System) returns (taken: seq<Ride>)
    requires Books(ro, s) && Locking(s) && Run(ro, s, actions, t)
    ensures forall i, j :: 0 <= i < j < |t.rides| ==> t.rides[i].vehicle != t.rides[j].vehicle
    ensures t.available !! Vehicles(t.rides) && t.available + Vehicles(t.rides) == ro.initial
    ensures t.rides == s.rides + taken && SpecRun(Abstract(s), taken, Abstract(t))
  {
    RunBooks(ro, s, actions, t);
    taken := RunRefines(ro, s, actions, t);
    hide Run, Locking, SpecRun;
    BooksBalance(ro, t);
  }

  lemma BooksBalance(ro: Roster, s: System)
    requires Books(ro, s)
    ensures s.available !! Vehicles(s.rides) && s.available + Vehicles(s.rides) == ro.initial
    ensures |s.available| + |s.rides| == |ro.initial|
  {
    DistinctVehicles(s.rides);
    assert s.available + Vehicles(s.rides) == ro.initial;
  }

  lemma {:induction false} DistinctVehicles(rides: seq<Ride>)
    requires forall i, j :: 0 <= i < j < |rides| ==> rides[i].vehicle != rides[j].vehicle
    ensures |Vehicles(rides)| == |rides|
  {
    if rides != [] {
      var n := |rides| - 1;
      DistinctVehicles(rides[..n]);
      assert rides == rides[..n] + [rides[n]];
      VehiclesGrow(rides[..n], rides[n]);
      assert rides[n].vehicle !in Vehicles(rides[..n]);
    }
  }

  // ---- refinement of an atomic "take an available vehicle" ----

  datatype Spec = Spec(available: set<string>, rides: seq<Ride>)

  function Abstract(s: System): Spec {
    Spec(s.available, s.rides)
  }

  ghost predicate Take(a: Spec, b: Spec, r: nat, v: string) {
    v in a.available && b == Spec(a.available - {v}, a.rides + [Ride(r, v)])
  }

  // A step is invisible to the specification, or takes a vehicle that is available to it at
  // that moment. A request answered "just taken" chose a vehicle that the specification no
  // longer had, so a stale list costs a retry and nothing else; and a request is answered
  // with a vehicle only after the specification took that vehicle for it.
  lemma StepRefines(ro: Roster, s: System, a: Action)
    requires Locking(s) && Enabled(ro, s, a)
    ensures !Commits(a) ==> Abstract(Next(ro, s, a)) == Abstract(s)
    ensures Commits(a) ==> Take(Abstract(s), Abstract(Next(ro, s, a)), a.r, PcOf(s, a.r).vehicle)
    ensures a.Update? && PcOf(Next(ro, s, a), a.r) == Done(JustTaken) ==> PcOf(s, a.r).vehicle !in Abstract(s).available
    ensures a.Update? && PcOf(Next(ro, s, a), a.r) != Done(JustTaken) ==> PcOf(s, a.r).vehicle in Abstract(s).available
  {
    if Commits(a) {
      assert HoldsAt(s, a.r, PcOf(s, a.r).vehicle);
    }
  }

  ghost predicate SpecRun(a: Spec, taken: seq<Ride>, b: Spec)
    decreases |taken|
  {
    if taken == [] then a == b
    else exists m :: Take(a, m, taken[0].request, taken[0].vehicle) && SpecRun(m, taken[1..], b)
  }

  lemma {:induction false} SpecRunsOn(a: Spec, xs: seq<Ride>, m: Spec, ys: seq<Ride>, b: Spec)
    requires SpecRun(a, xs, m) && SpecRun(m, ys, b)
    ensures SpecRun(a, xs + ys, b)
    decreases |xs|
  {
    if xs == [] {
      assert xs + ys == ys;
    } else {
      var n :| Take(a, n, xs[0].request, xs[0].vehicle) && SpecRun(n, xs[1..], m);
      SpecRunsOn(n, xs[1..], m, ys, b);
      assert (xs + ys)[1..] == xs[1..] + ys;
    }
  }

  // The rides that one step adds, none or one, are a run of the specification.
  lemma StepTakes(ro: Roster, s: System, a: Action) returns (taken: seq<Ride>)
    requires Locking(s) && Enabled(ro, s, a)
    ensures SpecRun(Abstract(s), taken, Abstract(Next(ro, s, a))) && Next(ro, s, a).rides == s.rides + taken
  {
    StepRefines(ro, s, a);
    if Commits(a) {
      var x := Ride(a.r, PcOf(s, a.r).vehicle);
      taken := [x];
      assert SpecRun(Abstract(Next(ro, s, a)), [x][1..], Abstract(Next(ro, s, a)));
    } else {
      taken := [];
    }
  }

  // Every run of the system is a run of the specification.
  lemma {:induction false} RunRefines(ro: Roster, s: System, actions: seq<Action>, t: System) returns (taken: seq<Ride>)
    requires Books(ro, s) && Locking(s) && Run(ro, s, actions, t)
    ensures SpecRun(Abstract(s), taken, Abstract(t)) && t.rides == s.rides + taken
    decreases |actions|
  {
    hide Books, Locking, Next, Enabled, SpecRun, Abstract;
    if actions == [] {
      taken := [];
      NothingTaken(Abstract(s));
    } else {
      var m := Next(ro, s, actions[0]);
      StepBooks(ro, s, actions[0]);
      StepLocking(ro, s, actions[0]);
      var first := StepTakes(ro, s, actions[0]);
      var rest := RunRefines(ro, m, actions[1..], t);
      SpecRunsOn(Abstract(s), first, Abstract(m), rest, Abstract(t));
      taken := first + rest;
    }
  }

  lemma NothingTaken(a: Spec)
    ensures SpecRun(a, [], a)
  {
  }

  // So whatever the cache and the replica do, the committed rides are those of some run of
  // the specification that started with the same vehicles.
  lemma DispatchRefines(ro: Roster, docs: set<string>, now: int, actions: seq<Action>, s: System)
    requires Run(ro, InitialSystem(ro, docs, now), actions, s)
    ensures SpecRun(Spec(ro.initial, []), s.rides, Abstract(s))
  {
    InitialInv(ro, docs, now);
    var taken := RunRefines(ro, InitialSystem(ro, docs, now), actions, s);
    assert s.rides == taken;
  }

  // ---- what stale lists can and cannot do ----

  // Every list a request gets, from cache, replica or primary, holds only vehicles that seat
  // the party, and holds every such vehicle that is still available on the primary and had
  // a position document visible to that list's Mongo read.
  lemma ListsComplete(ro: Roster, docs: set<string>, now: int, actions: seq<Action>, s: System, r: nat)
    requires Run(ro, InitialSystem(ro, docs, now), actions, s)
    requires At(s, r) && PcOf(s, r).HasList?
    ensures forall v :: v in PcOf(s, r).listing.vehicles ==> v in ro.seats && ro.seats[v] >= s.requests[r].passengers
    ensures forall v :: v in s.available && v in ro.seats && ro.seats[v] >= s.requests[r].passengers
                        && v in PcOf(s, r).listing.seen
              ==> v in PcOf(s, r).listing.vehicles
  {
    Reached(ro, docs, now, actions, s);
    assert RequestOk(ro, s, s.requests[r]);
    ListingMeaning(ro, s, PcOf(s, r).listing, s.requests[r].passengers);
  }

  lemma ListingMeaning(ro: Roster, s: System, l: Listing, k: nat)
    requires Books(ro, s) && ListingOk(ro, s.rides, l, k)
    ensures forall v :: v in l.vehicles <==> v in Snapshot(ro, s.rides, l.version) && Seats(ro, v, k) && v in l.seen
    ensures s.available <= Snapshot(ro, s.rides, l.version)
  {
    forall v ensures v in l.vehicles <==> v in Snapshot(ro, s.rides, l.version) && Seats(ro, v, k) && v in l.seen {
      assert v in l.vehicles <==> v in Elements(l.vehicles);
    }
    forall v | v in Vehicles(s.rides[..l.version]) ensures v in Vehicles(s.rides) {
      var i :| 0 <= i < l.version && s.rides[i].vehicle == v;
    }
  }

  // The listing behind a response that no vehicle is available.
  ghost function ListingBehind(s: System, a: Action): Listing
    requires (a.CacheHit? && At(s, a.r) && s.requests[a.r].passengers in s.cache)
             || (a.Fill? && At(s, a.r) && PcOf(s, a.r).Filling?)
  {
    if a.CacheHit? then s.cache[s.requests[a.r].passengers].listing else PcOf(s, a.r).listing
  }

  // "None available" is never false: at the moment it is answered no available vehicle seats
  // the party, but for those whose document the list's Mongo read could not see.
  lemma NoneAvailableIsTrue(ro: Roster, docs: set<string>, now: int, actions: seq<Action>, s: System, a: Action,
                            v: string)
    requires Run(ro, InitialSystem(ro, docs, now), actions, s)
    requires Enabled(ro, s, a) && (a.CacheHit? || a.Fill?)
    requires PcOf(Next(ro, s, a), a.r) == Done(NoneAvailable)
    requires v in s.available && v in ro.seats && ro.seats[v] >= s.requests[a.r].passengers
    ensures v !in ListingBehind(s, a).seen
  {
    Reached(ro, docs, now, actions, s);
    assert RequestOk(ro, s, s.requests[a.r]);
    ListingMeaning(ro, s, ListingBehind(s, a), s.requests[a.r].passengers);
  }

  // A successful ride seats its party and is the request's own.
  lemma AssignedSeatsTheParty(ro: Roster, docs: set<string>, now: int, actions: seq<Action>, s: System, r: nat,
                              v: string)
    requires Run(ro, InitialSystem(ro, docs, now), actions, s)
    requires At(s, r) && PcOf(s, r) == Done(Assigned(v))
    ensures v in ro.seats && ro.seats[v] >= s.requests[r].passengers && HasRide(s, r, v) && v !in s.available
  {
    Reached(ro, docs, now, actions, s);
    assert RequestOk(ro, s, s.requests[r]) && Booked(s, r);
  }

  // The rows a request reads: with enough seats, and on none of the rides visible where lists
  // are read. Without a replica these are the vehicles available at that moment.
  lemma RowsReadAreCurrent(ro: Roster, docs: set<string>, now: int, actions: seq<Action>, s: System, r: nat)
    requires Run(ro, InitialSystem(ro, docs, now), actions, s) && Enabled(ro, s, QueryRows(r))
    ensures At(Next(ro, s, QueryRows(r)), r)
    ensures var rows := RowsOf(PcOf(Next(ro, s, QueryRows(r)), r));
            && (forall v :: v in rows <==>
                  && v in ro.initial && v in ro.seats && ro.seats[v] >= s.requests[r].passengers
                  && forall k :: 0 <= k < (if ro.replicated then s.replica else |s.rides|) ==> s.rides[k].vehicle != v)
            && (!ro.replicated ==>
                  forall v :: v in rows <==>
                    v in s.available && v in ro.seats && ro.seats[v] >= s.requests[r].passengers)
  {
    Reached(ro, docs, now, actions, s);
    SnapshotMeans(ro, s.rides, if ro.replicated then s.replica else |s.rides|);
    assert s.rides[..|s.rides|] == s.rides;
  }

  function RowsOf(pc: Pc): set<string> {
    if pc.HasRows? then pc.rows else {}
  }

  lemma SnapshotMeans(ro: Roster, rides: seq<Ride>, n: nat)
    requires n <= |rides|
    ensures forall v :: v in Snapshot(ro, rides, n) <==>
              v in ro.initial && forall k :: 0 <= k < n ==> rides[k].vehicle != v
  {
    forall v ensures v in Snapshot(ro, rides, n) <==>
              v in ro.initial && forall k :: 0 <= k < n ==> rides[k].vehicle != v
    {
      if k :| 0 <= k < n && rides[k].vehicle == v {
        assert rides[..n][k].vehicle == v;
      }
    }
  }

  // A cached list is served exactly within 3 seconds of its writing; an empty one is answered
  // "none available", any other is the request's list.
  lemma CachedListIsServed(ro: Roster, s: System, r: nat)
    requires At(s, r) && PcOf(s, r).Start?
    ensures var k := s.requests[r].passengers;
            && (Enabled(ro, s, CacheHit(r)) <==> k in s.cache && s.now < s.cache[k].writtenAt + 3)
            && (Enabled(ro, s, CacheMiss(r, false)) <==> !(k in s.cache && s.now < s.cache[k].writtenAt + 3))
            && Enabled(ro, s, CacheMiss(r, true))
    ensures Enabled(ro, s, CacheHit(r)) ==>
              var listing := s.cache[s.requests[r].passengers].listing;
              var t := Next(ro, s, CacheHit(r));
              && At(t, r) && t.cache == s.cache
              && PcOf(t, r) == if listing.vehicles == [] then Done(NoneAvailable) else HasList(listing)
  {
  }

  // A list built is cached under its party size, if Redis works, from that moment on; and a
  // successful deletion removes exactly the lists for 1 to 7 seats.
  lemma CacheChanges(ro: Roster, s: System, r: nat, ok: bool)
    ensures Enabled(ro, s, Fill(r, ok)) ==>
              Next(ro, s, Fill(r, ok)).cache ==
              if ok then s.cache[s.requests[r].passengers := Entry(PcOf(s, r).listing, s.now, s.stamp)] else s.cache
    ensures Enabled(ro, s, Invalidate(r, ok)) ==>
              var t := Next(ro, s, Invalidate(r, ok));
              && (forall k :: k in t.cache <==> k in s.cache && (!ok || k < 1 || k > 7))
              && (forall k :: k in t.cache ==> t.cache[k] == s.cache[k])
              && At(t, r) && PcOf(t, r) == Done(Assigned(PcOf(s, r).vehicle))
  {
  }

  // ---- the invalidation race ----

  // Once the invalidation after a vehicle's ride has succeeded, a cached list holds the
  // vehicle only if it was written later.
  ghost predicate Cleared(ro: Roster, s: System) {
    && (forall k :: k in s.cache ==> s.cache[k].stamp < s.stamp && s.cache[k].writtenAt <= s.now)
    && (forall v :: v in s.clearedAt ==> s.clearedAt[v] < s.stamp && v in Vehicles(s.rides))
    && (forall v, k :: v in s.clearedAt && k in s.cache && Stale(ro, s.cache[k], v) ==>
        s.cache[k].stamp > s.clearedAt[v])
  }

  // The entry holds a vehicle whose invalidation covers every key it can be listed under.
  ghost predicate Stale(ro: Roster, e: Entry, v: string) {
    v in e.listing.vehicles && v in ro.seats && ro.seats[v] <= MAX_CACHEABLE_SEATS
  }

  lemma StepCleared(ro: Roster, s: System, a: Action)
    requires Cleared(ro, s) && Lists(ro, s) && AllBooked(s) && Books(ro, s) && Enabled(ro, s, a)
    ensures Cleared(ro, Next(ro, s, a))
  {
    if a.Invalidate? {
      StepClearedInvalidate(ro, s, a.r, a.ok);
    } else if a.Fill? {
      StepClearedFill(ro, s, a.r, a.ok);
    } else {
      CacheOnlyShrinks(ro, s, a);
      hide Next;
      ClearedKept(ro, s, Next(ro, s, a));
    }
  }

  lemma CacheOnlyShrinks(ro: Roster, s: System, a: Action)
    requires Enabled(ro, s, a) && !a.Invalidate? && !a.Fill?
    ensures var t := Next(ro, s, a); t.clearedAt == s.clearedAt && t.stamp >= s.stamp && t.now >= s.now
    ensures Vehicles(s.rides) <= Vehicles(Next(ro, s, a).rides)
    ensures forall k :: k in Next(ro, s, a).cache ==> k in s.cache && Next(ro, s, a).cache[k] == s.cache[k]
  {
    if Commits(a) {
      VehiclesGrow(s.rides, Ride(a.r, PcOf(s, a.r).vehicle));
    }
  }

  lemma StepClearedFill(ro: Roster, s: System, r: nat, ok: bool)
    requires Cleared(ro, s) && Enabled(ro, s, Fill(r, ok))
    ensures Cleared(ro, Next(ro, s, Fill(r, ok)))
  {
  }

  lemma ClearedKept(ro: Roster, s: System, t: System)
    requires Cleared(ro, s) && t.clearedAt == s.clearedAt && t.stamp >= s.stamp && t.now >= s.now
    requires Vehicles(s.rides) <= Vehicles(t.rides)
    requires forall k :: k in t.cache ==> k in s.cache && t.cache[k] == s.cache[k]
    ensures Cleared(ro, t)
  {
  }

  lemma StepClearedInvalidate(ro: Roster, s: System, r: nat, ok: bool)
    requires Cleared(ro, s) && Lists(ro, s) && AllBooked(s) && Books(ro, s) && Enabled(ro, s, Invalidate(r, ok))
    ensures Cleared(ro, Next(ro, s, Invalidate(r, ok)))
  {
    var t := Next(ro, s, Invalidate(r, ok));
    var v := PcOf(s, r).vehicle;
    assert Booked(s, r);
    forall u, k | u in t.clearedAt && k in t.cache && Stale(ro, t.cache[k], u)
      ensures t.cache[k].stamp > t.clearedAt[u]
    {
      ListingMeaning(ro, s, s.cache[k].listing, k);
    }
  }

  // For a vehicle of at most 7 seats whose invalidation has succeeded: a cached list that
  // still holds it was written after the deletion, from a read that did not see its ride.
  lemma InvalidationRace(ro: Roster, docs: set<string>, now: int, actions: seq<Action>, s: System, v: string, k: nat)
    requires Run(ro, InitialSystem(ro, docs, now), actions, s)
    requires v in s.clearedAt && v in ro.seats && ro.seats[v] <= 7
    requires k in s.cache && v in s.cache[k].listing.vehicles
    ensures s.cache[k].stamp > s.clearedAt[v]
    ensures v in Vehicles(s.rides) && s.cache[k].listing.version <= |s.rides|
    ensures v !in Vehicles(s.rides[..s.cache[k].listing.version])
    ensures s.cache[k].writtenAt <= s.now
  {
    Reached(ro, docs, now, actions, s);
    ListingMeaning(ro, s, s.cache[k].listing, k);
    assert Stale(ro, s.cache[k], v);
  }

  // And such a read is enough: a list read before the ride and written after the deletion
  // puts the vehicle back.
  lemma LateFillRestores(ro: Roster, docs: set<string>, now: int, actions: seq<Action>, s: System, r: nat, v: string)
    requires Run(ro, InitialSystem(ro, docs, now), actions, s)
    requires Enabled(ro, s, Fill(r, true)) && v in ro.initial
    ensures PcOf(s, r).listing.version <= |s.rides|
    ensures var l := PcOf(s, r).listing; var k := s.requests[r].passengers;
            v in Next(ro, s, Fill(r, true)).cache[k].listing.vehicles <==>
            v !in Vehicles(s.rides[..l.version]) && v in ro.seats && ro.seats[v] >= k && v in l.seen
  {
    Reached(ro, docs, now, actions, s);
    assert RequestOk(ro, s, s.requests[r]);
    ListingMeaning(ro, s, PcOf(s, r).listing, s.requests[r].passengers);
  }

  // Under key k there is nothing, or e, or something written at step n or later.
  ghost predicate OldOrNew(s: System, k: nat, e: Entry, n: nat) {
    s.stamp >= n && (k in s.cache ==> s.cache[k] == e || s.cache[k].stamp >= n)
  }

  lemma StepOldOrNew(ro: Roster, s: System, a: Action, k: nat, e: Entry, n: nat)
    requires OldOrNew(s, k, e, n) && Enabled(ro, s, a)
    ensures OldOrNew(Next(ro, s, a), k, e, n)
  {
    if !a.Invalidate? && !a.Fill? {
      CacheOnlyShrinks(ro, s, a);
    }
  }

  lemma {:induction false} RunOldOrNew(ro: Roster, s: System, actions: seq<Action>, t: System, k: nat, e: Entry, n: nat)
    requires OldOrNew(s, k, e, n) && Run(ro, s, actions, t)
    ensures OldOrNew(t, k, e, n)
    decreases |actions|
  {
    hide OldOrNew, Next, Enabled;
    if actions != [] {
      StepOldOrNew(ro, s, actions[0], k, e, n);
      RunOldOrNew(ro, Next(ro, s, actions[0]), actions[1..], t, k, e, n);
    }
  }

  // No entry outlives 3 seconds: whatever happens after state s, a list served from then on
  // was written later than s.
  lemma StaleEntryExpires(ro: Roster, s: System, actions: seq<Action>, t: System, k: nat, r: nat)
    requires k in s.cache && Run(ro, s, actions, t) && t.now >= s.cache[k].writtenAt + 3
    requires Enabled(ro, t, CacheHit(r)) && t.requests[r].passengers == k
    ensures t.cache[k].stamp >= s.stamp && t.cache[k] != s.cache[k]
  {
    RunOldOrNew(ro, s, actions, t, k, s.cache[k], s.stamp);
  }

  // ---- the race happens ----

  lemma {:induction false} RunExtends(ro: Roster, s: System, actions: seq<Action>, t: System, a: Action)
    requires Run(ro, s, actions, t) && Enabled(ro, t, a)
    ensures Run(ro, s, actions + [a], Next(ro, t, a))
    decreases |actions|
  {
    hide Next, Enabled;
    if actions == [] {
      assert Run(ro, Next(ro, s, a), [a][1..], Next(ro, t, a));
    } else {
      assert (actions + [a])[1..] == actions[1..] + [a];
      RunExtends(ro, Next(ro, s, actions[0]), actions[1..], t, a);
    }
  }

  lemma {:induction false} RunsOn(ro: Roster, s: System, xs: seq<Action>, t: System, ys: seq<Action>, u: System)
    requires Run(ro, s, xs, t) && Run(ro, t, ys, u)
    ensures Run(ro, s, xs + ys, u)
    decreases |xs|
  {
    hide Next, Enabled;
    if xs == [] {
      assert xs + ys == ys;
    } else {
      assert (xs + ys)[1..] == xs[1..] + ys;
      RunsOn(ro, Next(ro, s, xs[0]), xs[1..], t, ys, u);
    }
  }

  lemma Then(ro: Roster, s: System, before: seq<Action>, t: System, a: Action) returns (actions: seq<Action>)
    requires Run(ro, s, before, t) && Enabled(ro, t, a)
    ensures Run(ro, s, actions, Next(ro, t, a))
  {
    RunExtends(ro, s, before, t, a);
    actions := before + [a];
  }

  lemma NothingRun(ro: Roster, s: System)
    ensures Run(ro, s, [], s)
  {
  }

  lemma InSomeOrder(vs: set<string>) returns (found: seq<string>)
    ensures Elements(found) == vs
  {
    if vs == {} {
      found := [];
    } else {
      var v :| v in vs;
      found := InSomeOrder(vs - {v});
      ElementsAppend(found, v);
      found := found + [v];
    }
  }

  // Request r, for one passenger, misses the cache and builds its list.
  lemma BuildsList(ro: Roster, s: System, before: seq<Action>, t: System, r: nat, found: seq<string>)
    returns (actions: seq<Action>, u: System)
    requires Run(ro, s, before, t) && !At(t, r) && t.cache == map[] && t.rides == [] && t.replica == 0
    requires found != [] && Elements(found) == SeatsAtLeast(ro, ro.initial, 1) * t.docs
    ensures Run(ro, s, actions, u)
    ensures u == t.(stamp := u.stamp, requests := t.requests[r := Request(1, Filling(Listing(found, 0, t.docs)))])
  {
    hide Run;
    assert found[0] in Elements(found);
    assert Snapshot(ro, [], 0) == ro.initial;
    actions := Then(ro, s, before, t, Arrive(r, 1));
    u := Next(ro, t, Arrive(r, 1));
    actions := Then(ro, s, actions, u, CacheMiss(r, false));
    u := Next(ro, u, CacheMiss(r, false));
    actions := Then(ro, s, actions, u, QueryRows(r));
    u := Next(ro, u, QueryRows(r));
    actions := Then(ro, s, actions, u, FindDocs(r, found));
    u := Next(ro, u, FindDocs(r, found));
  }

  ghost predicate OthersWait(t: System, u: System, r: nat) {
    forall q :: q != r && q in t.requests ==> q in u.requests && u.requests[q] == t.requests[q]
  }

  // Request r chooses vehicle v from its list and is the first to update its row.
  lemma Takes(ro: Roster, s: System, before: seq<Action>, t: System, r: nat, v: string)
    returns (actions: seq<Action>, u: System)
    requires Run(ro, s, before, t) && At(t, r) && PcOf(t, r).Filling? && v in PcOf(t, r).listing.vehicles
    requires v in t.available && v !in t.locks
    ensures Run(ro, s, actions, u) && At(u, r) && PcOf(u, r) == Updated(v) && OthersWait(t, u, r)
  {
    hide Run;
    actions := Then(ro, s, before, t, Fill(r, true));
    u := Next(ro, t, Fill(r, true));
    actions := Then(ro, s, actions, u, Choose(r, v));
    u := Next(ro, u, Choose(r, v));
    actions := Then(ro, s, actions, u, Update(r));
    u := Next(ro, u, Update(r));
  }

  // It commits, and its invalidation succeeds.
  lemma CommitsAndClears(ro: Roster, s: System, before: seq<Action>, t: System, r: nat, v: string)
    returns (actions: seq<Action>, u: System)
    requires Run(ro, s, before, t) && At(t, r) && PcOf(t, r) == Updated(v)
    ensures Run(ro, s, actions, u) && v in u.clearedAt && OthersWait(t, u, r)
  {
    hide Run;
    actions := Then(ro, s, before, t, Insert(r));
    u := Next(ro, t, Insert(r));
    actions := Then(ro, s, actions, u, Commit(r));
    u := Next(ro, u, Commit(r));
    actions := Then(ro, s, actions, u, Invalidate(r, true));
    u := Next(ro, u, Invalidate(r, true));
  }

  // The race with two requests, for every roster and every vehicle that a party of one can be
  // offered: both build their lists, one takes the vehicle, commits and clears the cache, and
  // then the other writes its list. The vehicle is on a ride, its invalidation has succeeded,
  // and a live cached list offers it.
  lemma ClearedVehicleReturns(ro: Roster, docs: set<string>, now: int, v: string)
    returns (actions: seq<Action>, s: System)
    requires v in ro.initial && v in ro.seats && ro.seats[v] >= 1 && v in docs
    ensures Run(ro, InitialSystem(ro, docs, now), actions, s)
    ensures v in s.clearedAt && v !in s.available
    ensures 1 in s.cache && v in s.cache[1].listing.vehicles && Live(s.cache[1], s.now)
  {
    var start := InitialSystem(ro, docs, now);
    var found := InSomeOrder(SeatsAtLeast(ro, ro.initial, 1) * docs);
    assert v in Elements(found);
    assert Run(ro, start, [], start);
    actions, s := BuildsList(ro, start, [], start, 0, found);
    actions, s := BuildsList(ro, start, actions, s, 1, found);
    actions, s := Takes(ro, start, actions, s, 0, v);
    actions, s := CommitsAndClears(ro, start, actions, s, 0, v);
    actions := Then(ro, start, actions, s, Fill(1, true));
    s := Next(ro, s, Fill(1, true));
    Reached(ro, docs, now, actions, s);
  }
}
