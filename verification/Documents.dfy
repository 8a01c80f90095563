// The current-state documents in every run of any number of instances: each shows the whole
// of one received packet, and with fixed fields is exactly that packet.
module Documents {
  import opened Basics
  import opened Packets
  import opened LastWriteWins
  import opened Ingestion
  import opened DeleteAfterFlush

  // ---- whatever the fields ----

  // The document shows this packet: every field of it, with its value.
  ghost predicate Shows(doc: Doc, p: Packet) {
    forall k :: k in DocOf(p) ==> k in doc && doc[k] == DocOf(p)[k]
  }

  ghost predicate ShowsWinners(st: Store) {
    st.docs.Keys == st.winner.Keys && forall id :: id in st.winner ==> Shows(st.docs[id], st.winner[id])
  }

  lemma UpsertShows(doc: Doc, q: Option<Packet>, p: Packet)
    requires p.timestamp >= MIN_SAFE
    requires q.None? ==> Timestamp !in doc
    requires q.Some? ==> q.value.vehicleID == p.vehicleID && Shows(doc, q.value)
    ensures Shows(Applied(doc, p), Merge(q, Some(p)).value)
  {
    if q.Some? {
      assert DocOf(q.value)[Timestamp] == Num(q.value.timestamp);
      assert DocOf(q.value)[VehicleID] == Text(p.vehicleID);
    }
  }

  lemma OwnShows(st: Store, p: Packet)
    requires StoreInv(st) && ShowsWinners(st) && p.timestamp >= MIN_SAFE
    ensures Shows(Applied(Start(st.docs, p.vehicleID), p), Merge(Held(st.winner, p.vehicleID), Some(p)).value)
  {
    if p.vehicleID in st.winner {
      assert WinnerInv(st, p.vehicleID) && Shows(st.docs[p.vehicleID], st.winner[p.vehicleID]);
    }
    UpsertShows(Start(st.docs, p.vehicleID), Held(st.winner, p.vehicleID), p);
  }

  lemma UpsertedShows(st: Store, p: Packet)
    requires StoreInv(st) && ShowsWinners(st) && p.timestamp >= MIN_SAFE
    ensures ShowsWinners(Upserted(st, p))
  {
    hide Upserted, Applied, Start, Shows, StoreInv, Merge, Held;
    OwnShows(st, p);
    UpsertedDocs(st, p);
  }

  // The packet that a step upserts.
  function Upserts(s: Service, a: Action): Option<Packet>
    requires CanStep(s, a)
  {
    match a
    case ApplyUpsert(id) => Some(s.flight.value.batch[id])
    case LateUpsert(p) => Some(p)
    case _ => None
  }

  lemma StepUpserts(s: Service, st: Store, a: Action)
    requires ServiceInv(s, st) && CanStep(s, a)
    ensures var st' := StepStore(s, st, a);
            match Upserts(s, a)
            case None => st'.docs == st.docs && st'.winner == st.winner
            case Some(p) => st' == Upserted(st, p) && p.timestamp >= MIN_SAFE
  {
    if a.ApplyUpsert? {
      FlightPacket(s, st, a.id);
    }
  }

  lemma StepShows(s: Service, st: Store, a: Action)
    requires ServiceInv(s, st) && StoreInv(st) && ShowsWinners(st) && CanStep(s, a)
    ensures ShowsWinners(StepStore(s, st, a))
  {
    StepUpserts(s, st, a);
    hide StepStore, ServiceInv, Upserted;
    if Upserts(s, a).Some? {
      UpsertedShows(st, Upserts(s, a).value);
    }
  }

  lemma {:induction false} ShowsRun(w: World, moves: seq<Move>, w': World)
    requires WorldInv(w) && ShowsWinners(w.store) && Run(w, moves, w')
    ensures WorldInv(w') && ShowsWinners(w'.store)
    decreases |moves|
  {
    if moves != [] {
      WorldKeeps(w, moves[0].at, moves[0].action);
      StepShows(w.services[moves[0].at], w.store, moves[0].action);
      hide WorldInv, ShowsWinners, Next, Enabled;
      ShowsRun(Next(w, moves[0].at, moves[0].action), moves[1..], w');
    }
  }

  // No document is ever torn, whatever fields the packets carry: in every run of any number
  // of instances each document shows the whole of one packet, the last to be let through.
  lemma DocumentsShowOnePacket(n: nat, moves: seq<Move>, w: World, id: string)
    requires Run(Initial(n), moves, w)
    ensures id in w.store.docs <==> id in w.store.winner
    ensures id in w.store.docs ==> Shows(w.store.docs[id], w.store.winner[id]) && w.store.winner[id].vehicleID == id
    ensures id in w.store.docs ==>
              && w.store.winner[id].rest.Keys - {ObjectID} + {VehicleID, Timestamp} <= w.store.docs[id].Keys
              && w.store.docs[id][VehicleID] == Text(id)
              && w.store.docs[id][Timestamp] == Num(w.store.winner[id].timestamp)
              && forall k :: k in w.store.winner[id].rest && k !in {VehicleID, ObjectID, Timestamp} ==>
                   w.store.docs[id][k] == w.store.winner[id].rest[k]
  {
    InitialInv(n);
    ShowsRun(Initial(n), moves, w);
    assert id in w.store.winner ==> WinnerInv(w.store, id);
    hide Run;
    if id in w.store.docs {
      ShowsFields(w.store.docs[id], w.store.winner[id]);
    }
  }

  // What it means to show a packet, field by field.
  lemma ShowsFields(doc: Doc, p: Packet)
    ensures Shows(doc, p) <==>
            && p.rest.Keys - {ObjectID} + {VehicleID, Timestamp} <= doc.Keys
            && doc[VehicleID] == Text(p.vehicleID) && doc[Timestamp] == Num(p.timestamp)
            && forall k :: k in p.rest && k !in {VehicleID, ObjectID, Timestamp} ==> doc[k] == p.rest[k]
  {
    DocumentFields(p);
    hide DocOf, StateFields;
  }

  // ---- with a fixed field set ----

  type Shape = string -> set<Field>

  // Each vehicle always sends the same fields.
  ghost predicate Shaped(ps: seq<Packet>, shape: Shape) {
    forall p :: p in ps ==> StateFields(p) == shape(p.vehicleID)
  }

  ghost predicate Mirrors(st: Store) {
    st.docs.Keys == st.winner.Keys && forall id :: id in st.winner ==> st.docs[id] == DocOf(st.winner[id])
  }

  // Nothing enters the system but by arriving.
  ghost predicate FromArrivals(w: World) {
    && (forall id :: id in w.store.winner ==> w.store.winner[id] in w.arrived)
    && (forall p :: p in w.store.written || p in w.adrift ==> p in w.arrived)
    && (forall i, p :: 0 <= i < |w.services| && p in w.services[i].log ==> p in w.arrived)
  }

  // A packet counts if no crash lost it, or if its upsert was carried out nevertheless.
  function Counted(w: World): set<Packet> {
    set p | p in w.arrived && (p.delivery !in w.lost || p in w.store.written)
  }

  lemma UpsertArrived(w: World, i: nat, a: Action)
    requires WorldInv(w) && FromArrivals(w) && Enabled(w, i, a)
    ensures Upserts(w.services[i], a).Some? ==> Upserts(w.services[i], a).value in w.arrived
  {
    if a.ApplyUpsert? {
      FlightPacket(w.services[i], w.store, a.id);
      assert w.services[i].flight.value.batch[a.id] in w.services[i].log;
    }
  }

  lemma OutstandingArrived(w: World, i: nat)
    requires WorldInv(w) && FromArrivals(w) && i < |w.services|
    ensures forall p :: p in Outstanding(w.services[i]) ==> p in w.arrived
  {
    var s := w.services[i];
    forall p | p in Outstanding(s) ensures p in w.arrived {
      var id :| id in s.flight.value.batch && s.flight.value.batch[id] == p;
      FlightPacket(s, w.store, id);
      assert p in s.log;
    }
  }

  lemma StepFromArrivals(w: World, i: nat, a: Action)
    requires WorldInv(w) && FromArrivals(w) && Enabled(w, i, a)
    ensures FromArrivals(Next(w, i, a)) && w.arrived <= Next(w, i, a).arrived
  {
    hide WorldInv, StepStore, StepService, Outstanding, Upserts;
    UpsertArrived(w, i, a);
    StepWinners(w.services[i], w.store, a);
    StepAdrift(w, i, a);
    StepLogs(w.services[i], w.store, a);
    hide CanStep;
  }

  lemma StepAdrift(w: World, i: nat, a: Action)
    requires WorldInv(w) && FromArrivals(w) && Enabled(w, i, a)
    ensures forall p :: p in Next(w, i, a).adrift ==> p in w.arrived
  {
    OutstandingArrived(w, i);
    hide WorldInv, StepStore, StepService, Outstanding, CanStep;
  }

  lemma StepWinners(s: Service, st: Store, a: Action)
    requires CanStep(s, a)
    ensures forall id :: id in StepStore(s, st, a).winner ==>
              (id in st.winner && StepStore(s, st, a).winner[id] == st.winner[id])
              || Some(StepStore(s, st, a).winner[id]) == Upserts(s, a)
    ensures forall p :: p in StepStore(s, st, a).written ==> p in st.written || Some(p) == Upserts(s, a)
  {
  }

  lemma MirrorOwn(doc: Doc, q: Option<Packet>, p: Packet)
    requires q.Some? ==> doc == DocOf(q.value)
    requires q.Some? ==> q.value.vehicleID == p.vehicleID && StateFields(q.value) == StateFields(p)
    requires q.None? ==> doc == map[VehicleID := Text(p.vehicleID)] && p.timestamp >= MIN_SAFE
    ensures Applied(doc, p) == DocOf(Merge(q, Some(p)).value)
  {
    if q.Some? {
      AppliedOver(q.value, p);
    } else {
      assert doc + DocOf(p) == DocOf(p);
    }
  }

  lemma MirrorUpsert(st: Store, p: Packet)
    requires Mirrors(st) && p.timestamp >= MIN_SAFE
    requires p.vehicleID in st.winner ==>
               st.winner[p.vehicleID].vehicleID == p.vehicleID && StateFields(st.winner[p.vehicleID]) == StateFields(p)
    ensures Mirrors(Upserted(st, p))
  {
    hide Upserted, DocOf, StateFields, Applied, Merge;
    MirrorOwn(Start(st.docs, p.vehicleID), Held(st.winner, p.vehicleID), p);
    UpsertedDocs(st, p);
  }

  lemma MirrorStep(w: World, i: nat, a: Action, arrived: seq<Packet>, shape: Shape)
    requires WorldInv(w) && FromArrivals(w) && Mirrors(w.store) && Enabled(w, i, a)
    requires w.arrived <= arrived && Shaped(arrived, shape)
    ensures Mirrors(Next(w, i, a).store)
  {
    UpsertArrived(w, i, a);
    StepUpserts(w.services[i], w.store, a);
    hide StepStore, ServiceInv, Upserted;
    if Upserts(w.services[i], a).Some? {
      var p := Upserts(w.services[i], a).value;
      if p.vehicleID in w.store.winner {
        assert WinnerInv(w.store, p.vehicleID);
      }
      MirrorUpsert(w.store, p);
    }
  }

  lemma {:induction false} MirrorRun(w: World, moves: seq<Move>, w': World, shape: Shape)
    requires WorldInv(w) && FromArrivals(w) && Mirrors(w.store) && Run(w, moves, w') && Shaped(w'.arrived, shape)
    ensures WorldInv(w') && FromArrivals(w') && Mirrors(w'.store) && w.arrived <= w'.arrived
    decreases |moves|
  {
    if moves != [] {
      var i, a := moves[0].at, moves[0].action;
      var w1 := Next(w, i, a);
      WorldKeeps(w, i, a);
      StepFromArrivals(w, i, a);
      ArrivalsRun(w1, moves[1..], w');
      MirrorStep(w, i, a, w'.arrived, shape);
      MirrorRun(w1, moves[1..], w', shape);
    }
  }

  lemma {:induction false} ArrivalsRun(w: World, moves: seq<Move>, w': World)
    requires Run(w, moves, w')
    ensures w.arrived <= w'.arrived
    decreases |moves|
  {
    if moves != [] {
      ArrivalsRun(Next(w, moves[0].at, moves[0].action), moves[1..], w');
    }
  }

  // With a fixed field set per vehicle no document is ever torn: in every run of any number
  // of instances each document is exactly one received packet, the winner.
  lemma DocumentsAreWholePackets(n: nat, moves: seq<Move>, w: World, shape: Shape, id: string)
    requires Run(Initial(n), moves, w) && Shaped(w.arrived, shape) && id in w.store.docs
    ensures id in w.store.winner && w.store.docs[id] == DocOf(w.store.winner[id])
    ensures w.store.winner[id] in w.arrived && w.store.winner[id].vehicleID == id
  {
    InitialInv(n);
    MirrorRun(Initial(n), moves, w, shape);
    assert WinnerInv(w.store, id);
  }
}
