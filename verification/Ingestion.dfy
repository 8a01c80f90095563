// The telemetry service in queue mode: receive, flush, delete after flush. One or more
// instances share a database and a queue; a step is what happens between two awaits, one
// write taking effect in the database, possibly long after it was given up, or a crash.
module Ingestion {
  import opened Basics
  import opened Packets
  import opened LastWriteWins
  import opened Batching

  // ---- state ----

  // A flush in flight. Of an unordered bulk write any subset may have taken effect; of an
  // unordered insert `todo` has not been written yet.
  datatype Phase = Upserting(applied: set<string>) | Inserting(todo: multiset<Packet>)

  datatype Flight = Flight(batch: map<string, Packet>, history: seq<Packet>, phase: Phase)

  // One instance. `awaiting` holds the receipts of the flushAndAck call whose flush is in
  // flight, `acking` those of each call that is in its delete loop. The last two fields
  // record the past: the packets received since the start and those of completed flushes.
  datatype Service = Service(batcher: Batcher, pending: seq<nat>, flight: Option<Flight>, awaiting: seq<nat>,
                             acking: seq<seq<nat>>, log: seq<Packet>, committed: seq<Packet>)

  // `winner` records for each vehicle the packet whose upsert was last let through, `written`
  // the packets whose upserts have been carried out, let through or not.
  datatype Store = Store(docs: map<string, Doc>, winner: map<string, Packet>, written: set<Packet>,
                         history: multiset<Packet>)

  // `adrift` holds the packets of upserts given up by their instance, through a reported
  // failure or a crash, which the database may still carry out, one for each such upsert.
  // `owner` names the instance that received a delivery, `arrived` lists the packets received
  // by any instance in order, `deleted` holds the receipts deleted from the queue, `lost` the
  // deliveries that were only in memory when an instance crashed.
  datatype World = World(services: seq<Service>, store: Store, adrift: multiset<Packet>, owner: map<nat, nat>,
                         arrived: seq<Packet>, deleted: set<nat>, lost: set<nat>)

  datatype Action = Receive(p: Packet) | FlushAndAck | ApplyUpsert(id: string) | BulkDone | InsertOne(q: Packet)
                  | InsertDone | FlushFails | DeleteChunk(call: nat, accepted: set<nat>) | Crash
                  | LateUpsert(late: Packet)

  function Started(): Service {
    Service(NewBatcher(true), [], None, [], [], [], [])
  }

  function InFlight(s: Service): seq<Packet> {
    if s.flight.Some? then s.flight.value.history else []
  }

  // What an instance holds in memory only, oldest first.
  function Unstored(s: Service): seq<Packet> {
    InFlight(s) + s.batcher.historyBuffer
  }

  function Deliveries(log: seq<Packet>): seq<nat> {
    seq(|log|, i requires 0 <= i < |log| => log[i].delivery)
  }

  function FirstChunk(receipts: seq<nat>): seq<nat> {
    if |receipts| <= 10 then receipts else receipts[..10]
  }

  // ---- steps ----

  predicate CanStep(s: Service, a: Action) {
    match a
    case Receive(p) => p.timestamp >= MIN_SAFE
    case FlushAndAck => true
    case ApplyUpsert(id) => s.flight.Some? && s.flight.value.phase.Upserting? && id in s.flight.value.batch
    case BulkDone => s.flight.Some? && s.flight.value.phase == Upserting(s.flight.value.batch.Keys)
    case InsertOne(p) => s.flight.Some? && s.flight.value.phase.Inserting? && p in s.flight.value.phase.todo
    case InsertDone => s.flight.Some? && s.flight.value.phase == Inserting(multiset{})
    case FlushFails => s.flight.Some?
    case DeleteChunk(call, accepted) =>
      call < |s.acking| && forall r :: r in accepted ==> r in FirstChunk(s.acking[call])
    case Crash => true
    case LateUpsert(p) => p.timestamp >= MIN_SAFE
  }

  function TakenIn(s: Service, p: Packet): Service {
    s.(batcher := Added(s.batcher, p), pending := s.pending + [p.delivery], log := s.log + [p])
  }

  function StepService(s: Service, st: Store, a: Action): Service
    requires CanStep(s, a)
  {
    match a
    case Receive(p) => TakenIn(s, p)
    case FlushAndAck =>
      if NothingToFlush(s.batcher) then
        // flush returns normally, so the receipts go straight to the delete loop
        s.(pending := [], acking := s.acking + [s.pending])
      else
        s.(pending := [], awaiting := s.pending, batcher := Swapped(s.batcher),
           flight := Some(Flight(s.batcher.buffer, s.batcher.historyBuffer, Upserting({}))))
    case ApplyUpsert(id) => s.(flight := Some(s.flight.value.(phase := Upserting(s.flight.value.phase.applied + {id}))))
    case BulkDone =>
      s.(batcher := AfterUpserts(s.batcher, |s.flight.value.batch|),
         flight := Some(s.flight.value.(phase := Inserting(multiset(s.flight.value.history)))))
    case InsertOne(p) =>
      s.(flight := Some(s.flight.value.(phase := Inserting(s.flight.value.phase.todo - multiset{p}))))
    case InsertDone =>
      s.(batcher := AfterFlush(s.batcher, |s.flight.value.history|), flight := None, awaiting := [],
         acking := s.acking + [s.awaiting], committed := s.committed + s.flight.value.history)
    case FlushFails =>
      s.(batcher := AfterFailure(s.batcher, s.flight.value.batch, s.flight.value.history),
         flight := None, awaiting := [], pending := s.awaiting + s.pending)
    case DeleteChunk(call, _) =>
      s.(acking := s.acking[call := s.acking[call][|FirstChunk(s.acking[call])|..]])
    case Crash => Started()
    case LateUpsert(_) => s
  }

  // The upserts of a flight that have not taken effect yet.
  function Outstanding(s: Service): set<Packet> {
    if s.flight.Some? && s.flight.value.phase.Upserting?
    then set id | id in s.flight.value.batch && id !in s.flight.value.phase.applied :: s.flight.value.batch[id]
    else {}
  }

  function Win(winner: map<string, Packet>, p: Packet): map<string, Packet> {
    winner[p.vehicleID := Merge(Held(winner, p.vehicleID), Some(p)).value]
  }

  function Upserted(st: Store, p: Packet): Store {
    st.(docs := RunUpsert(st.docs, UpsertOf(p)), winner := Win(st.winner, p), written := st.written + {p})
  }

  function StepStore(s: Service, st: Store, a: Action): Store
    requires CanStep(s, a)
  {
    match a
    case ApplyUpsert(id) => Upserted(st, s.flight.value.batch[id])
    case InsertOne(p) => st.(history := st.history + multiset{p})
    case LateUpsert(p) => Upserted(st, p)
    case _ => st
  }

  predicate Enabled(w: World, i: nat, a: Action) {
    && i < |w.services|
    && CanStep(w.services[i], a)
    && (a.Receive? ==> a.p.delivery !in w.owner)
    && (a.LateUpsert? ==> a.late in w.adrift)
  }

  function Next(w: World, i: nat, a: Action): World
    requires Enabled(w, i, a)
  {
    var s := w.services[i];
    w.(services := w.services[i := StepService(s, w.store, a)],
       store := StepStore(s, w.store, a),
       adrift := if a.Crash? || a.FlushFails? then w.adrift + multiset(Outstanding(s))
                 else if a.LateUpsert? then w.adrift - multiset{a.late} else w.adrift,
       owner := if a.Receive? then w.owner[a.p.delivery := i] else w.owner,
       arrived := if a.Receive? then w.arrived + [a.p] else w.arrived,
       deleted := if a.DeleteChunk? then w.deleted + a.accepted else w.deleted,
       lost := if a.Crash? then w.lost + Elements(Deliveries(Unstored(s))) else w.lost)
  }

  function Initial(n: nat): World {
    World(seq(n, _ => Started()), Store(map[], map[], {}, multiset{}), multiset{}, map[], [], {}, {})
  }

  // ---- what the database keeps ----

  ghost predicate StoredAt(st: Store, id: string, ts: real) {
    id in st.winner && st.winner[id].timestamp >= ts
  }

  // Every history record's and every written packet's vehicle is stored at least as new; each
  // document carries the timestamp of its winner, a written packet.
  ghost predicate StoreInv(st: Store) {
    && st.docs.Keys == st.winner.Keys
    && (forall id :: id in st.winner ==> WinnerInv(st, id))
    && (forall p :: p in st.history || p in st.written ==> StoredAt(st, p.vehicleID, p.timestamp))
  }

  ghost predicate WinnerInv(st: Store, id: string)
    requires st.docs.Keys == st.winner.Keys && id in st.winner
  {
    && st.winner[id].vehicleID == id
    && st.winner[id].timestamp >= MIN_SAFE && st.winner[id] in st.written
    && Timestamp in st.docs[id] && st.docs[id][Timestamp] == Num(st.winner[id].timestamp)
  }

  // Nothing stored is taken back and no stored timestamp decreases.
  ghost predicate Grows(st: Store, st': Store) {
    && st.history <= st'.history
    && forall id, ts :: StoredAt(st, id, ts) ==> StoredAt(st', id, ts)
  }

  // The history collection holds the packet of this delivery.
  ghost predicate Durable(st: Store, r: nat) {
    exists p :: p in st.history && p.delivery == r
  }

  // ---- the instance invariant ----

  ghost predicate FlightInv(f: Flight, st: Store) {
    && IsIndex(f.batch, f.history)
    && (f.phase.Upserting? ==>
          forall id :: id in f.phase.applied ==> id in f.batch && StoredAt(st, id, f.batch[id].timestamp))
    && (f.phase.Inserting? ==>
          && f.phase.todo <= multiset(f.history)
          && (forall id :: id in f.batch ==> StoredAt(st, id, f.batch[id].timestamp))
          && (forall p :: p in f.history ==> p in st.history || p in f.phase.todo))
  }

  ghost predicate ServiceInv(s: Service, st: Store) {
    && s.batcher.keepsHistory
    && (s.batcher.flushing <==> s.flight.Some?)
    && IsIndex(s.batcher.buffer, s.batcher.historyBuffer)
    && s.log == s.committed + Unstored(s)
    && (forall p :: p in s.log ==> p.timestamp >= MIN_SAFE)
    && (forall p :: p in s.committed ==> p in st.history)
    && s.batcher.stats.received == |s.log| && s.batcher.stats.history == |s.committed|
    && (s.flight.Some? ==> FlightInv(s.flight.value, st))
  }

  lemma ServiceInvGrows(s: Service, st: Store, st': Store)
    requires ServiceInv(s, st) && Grows(st, st')
    ensures ServiceInv(s, st')
  {
    forall p | p in st.history ensures p in st'.history {}
  }

  lemma ReceiveKeeps(s: Service, st: Store, p: Packet)
    requires ServiceInv(s, st) && p.timestamp >= MIN_SAFE
    ensures ServiceInv(StepService(s, st, Receive(p)), st)
  {
    AddKeepsIndex(s.batcher.buffer, s.batcher.historyBuffer, p);
    var s' := StepService(s, st, Receive(p));
    assert s'.log == s'.committed + Unstored(s');
  }

  lemma FlushAndAckKeeps(s: Service, st: Store)
    requires ServiceInv(s, st)
    ensures ServiceInv(StepService(s, st, FlushAndAck), st)
  {
    var s' := StepService(s, st, FlushAndAck);
    assert Unstored(s') == Unstored(s);
    assert IsIndex(map[], []);
  }

  lemma BulkDoneKeeps(s: Service, st: Store)
    requires ServiceInv(s, st) && CanStep(s, BulkDone)
    ensures ServiceInv(StepService(s, st, BulkDone), st)
  {
    forall p | p in s.flight.value.history ensures p in multiset(s.flight.value.history) {}
  }

  lemma InsertDoneKeeps(s: Service, st: Store)
    requires ServiceInv(s, st) && CanStep(s, InsertDone)
    ensures ServiceInv(StepService(s, st, InsertDone), st)
  {
    var s' := StepService(s, st, InsertDone);
    assert s'.committed + Unstored(s') == s.committed + Unstored(s);
  }

  lemma FlushFailsKeeps(s: Service, st: Store)
    requires ServiceInv(s, st) && CanStep(s, FlushFails)
    ensures ServiceInv(StepService(s, st, FlushFails), st)
  {
    var f := s.flight.value;
    PutBackKeepsIndex(f.batch, f.history, s.batcher.buffer, s.batcher.historyBuffer);
    assert Unstored(StepService(s, st, FlushFails)) == Unstored(s);
  }

  lemma UpsertedDocs(st: Store, p: Packet)
    ensures Upserted(st, p).docs == st.docs[p.vehicleID := Applied(Start(st.docs, p.vehicleID), p)]
    ensures Upserted(st, p).winner == st.winner[p.vehicleID := Merge(Held(st.winner, p.vehicleID), Some(p)).value]
    ensures Upserted(st, p).history == st.history && Upserted(st, p).written == st.written + {p}
  {
    UpsertIsAllOrNothing(Start(st.docs, p.vehicleID), p);
  }

  // Over the document of packet q, or over none, the upsert of p leaves the newer timestamp.
  lemma AppliedTime(doc: Doc, q: Option<Packet>, p: Packet)
    requires p.timestamp >= MIN_SAFE
    requires if q.None? then Timestamp !in doc else Timestamp in doc && doc[Timestamp] == Num(q.value.timestamp)
    ensures Timestamp in Applied(doc, p) && Applied(doc, p)[Timestamp] == Num(Merge(q, Some(p)).value.timestamp)
  {
    assert DocOf(p)[Timestamp] == Num(p.timestamp);
  }

  lemma UpsertedGrows(st: Store, p: Packet)
    ensures Grows(st, Upserted(st, p)) && StoredAt(Upserted(st, p), p.vehicleID, p.timestamp)
  {
    hide RunUpsert, UpsertOf;
  }

  lemma StartTime(st: Store, id: string)
    requires StoreInv(st)
    ensures if id !in st.winner then Timestamp !in Start(st.docs, id)
            else Timestamp in Start(st.docs, id) && Start(st.docs, id)[Timestamp] == Num(st.winner[id].timestamp)
                 && st.winner[id].vehicleID == id && st.winner[id] in st.written
  {
    if id in st.winner {
      assert WinnerInv(st, id);
    }
  }

  lemma UpsertedKeeps(st: Store, p: Packet)
    requires StoreInv(st) && p.timestamp >= MIN_SAFE
    ensures StoreInv(Upserted(st, p))
  {
    hide Upserted, Applied, Start, StoreInv, Grows;
    StartTime(st, p.vehicleID);
    AppliedTime(Start(st.docs, p.vehicleID), Held(st.winner, p.vehicleID), p);
    UpsertedDocs(st, p);
    UpsertedGrows(st, p);
    StoreRewritten(st, Upserted(st, p), p, Applied(Start(st.docs, p.vehicleID), p),
                   Merge(Held(st.winner, p.vehicleID), Some(p)).value);
  }

  lemma StoreRewritten(st: Store, st': Store, p: Packet, doc: Doc, win: Packet)
    requires StoreInv(st) && Grows(st, st') && st'.history == st.history && st'.written == st.written + {p}
    requires st'.docs == st.docs[p.vehicleID := doc] && st'.winner == st.winner[p.vehicleID := win]
    requires win.vehicleID == p.vehicleID && win.timestamp >= MIN_SAFE && win in st'.written
    requires win.timestamp >= p.timestamp
    requires Timestamp in doc && doc[Timestamp] == Num(win.timestamp)
    ensures StoreInv(st')
  {
    WinnersRewritten(st, st', p.vehicleID, doc, win);
    forall q | q in st'.history || q in st'.written ensures StoredAt(st', q.vehicleID, q.timestamp) {
      if q in st.history || q in st.written {
        assert StoredAt(st, q.vehicleID, q.timestamp);
      }
    }
    hide WinnerInv, StoredAt;
  }

  lemma WinnersRewritten(st: Store, st': Store, id: string, doc: Doc, win: Packet)
    requires st.docs.Keys == st.winner.Keys && forall k :: k in st.winner ==> WinnerInv(st, k)
    requires st'.docs == st.docs[id := doc] && st'.winner == st.winner[id := win] && st.written <= st'.written
    requires win.vehicleID == id && win.timestamp >= MIN_SAFE && win in st'.written
    requires Timestamp in doc && doc[Timestamp] == Num(win.timestamp)
    ensures st'.docs.Keys == st'.winner.Keys && forall k :: k in st'.winner ==> WinnerInv(st', k)
  {
    forall k | k in st'.winner && k != id ensures k in st.winner && WinnerInv(st, k) {}
  }

  lemma FlightPacket(s: Service, st: Store, id: string)
    requires ServiceInv(s, st) && s.flight.Some? && id in s.flight.value.batch
    ensures s.flight.value.batch[id] in s.flight.value.history
    ensures s.flight.value.batch[id].vehicleID == id && s.flight.value.batch[id].timestamp >= MIN_SAFE
  {
    IndexFromLog(s.flight.value.batch, s.flight.value.history, id);
    assert s.flight.value.batch[id] in s.log;
  }

  lemma ApplyUpsertKeeps(s: Service, st: Store, id: string)
    requires ServiceInv(s, st) && StoreInv(st) && CanStep(s, ApplyUpsert(id))
    ensures StoreInv(StepStore(s, st, ApplyUpsert(id))) && Grows(st, StepStore(s, st, ApplyUpsert(id)))
    ensures ServiceInv(StepService(s, st, ApplyUpsert(id)), StepStore(s, st, ApplyUpsert(id)))
  {
    var p := s.flight.value.batch[id];
    FlightPacket(s, st, id);
    LateUpsertKeeps(s, st, p);
    UpsertedGrows(st, p);
    hide Upserted, StoreInv, Grows, FlightInv;
    UpsertMarked(s.flight.value, Upserted(st, p), id);
  }

  lemma UpsertMarked(f: Flight, st: Store, id: string)
    requires FlightInv(f, st) && f.phase.Upserting? && id in f.batch && StoredAt(st, id, f.batch[id].timestamp)
    ensures FlightInv(f.(phase := Upserting(f.phase.applied + {id})), st)
  {
  }

  lemma LateUpsertKeeps(s: Service, st: Store, p: Packet)
    requires ServiceInv(s, st) && StoreInv(st) && p.timestamp >= MIN_SAFE
    ensures StoreInv(Upserted(st, p)) && Grows(st, Upserted(st, p)) && ServiceInv(s, Upserted(st, p))
  {
    UpsertedKeeps(st, p);
    UpsertedGrows(st, p);
    hide Upserted;
    ServiceInvGrows(s, st, Upserted(st, p));
  }

  lemma InsertOneStoreKeeps(s: Service, st: Store, p: Packet)
    requires ServiceInv(s, st) && StoreInv(st) && CanStep(s, InsertOne(p))
    ensures StoreInv(StepStore(s, st, InsertOne(p))) && Grows(st, StepStore(s, st, InsertOne(p)))
  {
    var f := s.flight.value;
    assert p in multiset(f.history);
    var k :| 0 <= k < |f.history| && f.history[k] == p;
    IndexCovers(f.batch, f.history, k);
    HistoryGrows(st, p);
  }

  lemma HistoryGrows(st: Store, p: Packet)
    requires StoreInv(st) && StoredAt(st, p.vehicleID, p.timestamp)
    ensures StoreInv(st.(history := st.history + multiset{p})) && Grows(st, st.(history := st.history + multiset{p}))
  {
    var st' := st.(history := st.history + multiset{p});
    forall id | id in st'.winner ensures WinnerInv(st', id) {
      assert WinnerInv(st, id);
    }
    forall q | q in st'.history || q in st'.written ensures StoredAt(st', q.vehicleID, q.timestamp) {
      if q != p {
        assert q in st.history || q in st.written;
      }
      assert StoredAt(st, q.vehicleID, q.timestamp);
    }
    assert forall id, ts :: StoredAt(st', id, ts) <==> StoredAt(st, id, ts);
  }

  lemma InsertOneKeeps(s: Service, st: Store, p: Packet)
    requires ServiceInv(s, st) && StoreInv(st) && CanStep(s, InsertOne(p))
    ensures ServiceInv(StepService(s, st, InsertOne(p)), StepStore(s, st, InsertOne(p)))
  {
    var f := s.flight.value;
    var st' := StepStore(s, st, InsertOne(p));
    InsertOneStoreKeeps(s, st, p);
    ServiceInvGrows(s, st, st');
    forall q | q in f.history ensures q in st'.history || q in f.phase.todo - multiset{p} {
      assert q == p ==> q in st'.history;
    }
    assert Unstored(StepService(s, st, InsertOne(p))) == Unstored(s);
  }

  lemma StepKeeps(s: Service, st: Store, a: Action)
    requires ServiceInv(s, st) && StoreInv(st) && CanStep(s, a)
    ensures StoreInv(StepStore(s, st, a)) && Grows(st, StepStore(s, st, a))
    ensures ServiceInv(StepService(s, st, a), StepStore(s, st, a))
  {
    match a
    case Receive(p) => ReceiveKeeps(s, st, p);
    case FlushAndAck => FlushAndAckKeeps(s, st);
    case ApplyUpsert(id) => ApplyUpsertKeeps(s, st, id);
    case BulkDone => BulkDoneKeeps(s, st);
    case InsertOne(p) => InsertOneStoreKeeps(s, st, p); InsertOneKeeps(s, st, p);
    case InsertDone => InsertDoneKeeps(s, st);
    case FlushFails => FlushFailsKeeps(s, st);
    case DeleteChunk(_, _) =>
    case Crash => assert IsIndex(map[], []);
    case LateUpsert(p) => LateUpsertKeeps(s, st, p);
  }
}
