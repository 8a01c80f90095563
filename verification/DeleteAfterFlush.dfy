// Deleted implies durable: a message leaves the queue only once its packet is in the
// database. This holds of every run in which no flushAndAck call starts, with receipts
// pending, while a flush is in flight; and only of those.
module DeleteAfterFlush {
  import opened Packets
  import opened LastWriteWins
  import opened Batching
  import opened Ingestion

  // ---- every run ----

  ghost predicate WorldInv(w: World) {
    StoreInv(w.store) && forall i :: 0 <= i < |w.services| ==> ServiceInv(w.services[i], w.store)
  }

  lemma InitialInv(n: nat)
    ensures WorldInv(Initial(n))
  {
    assert IsIndex(map[], []);
  }

  lemma WorldKeeps(w: World, i: nat, a: Action)
    requires WorldInv(w) && Enabled(w, i, a)
    ensures WorldInv(Next(w, i, a)) && Grows(w.store, Next(w, i, a).store)
  {
    var w' := Next(w, i, a);
    StepKeeps(w.services[i], w.store, a);
    forall j | 0 <= j < |w'.services| ensures ServiceInv(w'.services[j], w'.store) {
      if j != i {
        ServiceInvGrows(w.services[j], w.store, w'.store);
      }
    }
  }

  datatype Move = Move(at: nat, action: Action)

  // w' is reached from w by the given steps.
  ghost predicate Run(w: World, moves: seq<Move>, w': World)
    decreases |moves|
  {
    if moves == [] then w == w'
    else Enabled(w, moves[0].at, moves[0].action) && Run(Next(w, moves[0].at, moves[0].action), moves[1..], w')
  }

  lemma {:induction false} RunExtends(w: World, moves: seq<Move>, w': World, m: Move)
    requires Run(w, moves, w') && Enabled(w', m.at, m.action)
    ensures Run(w, moves + [m], Next(w', m.at, m.action))
    decreases |moves|
  {
    hide Next, Enabled;
    if moves != [] {
      assert (moves + [m])[1..] == moves[1..] + [m];
      RunExtends(Next(w, moves[0].at, moves[0].action), moves[1..], w', m);
    } else {
      assert Run(Next(w, m.at, m.action), [m][1..], Next(w', m.at, m.action));
    }
  }

  lemma {:induction false} RunsOn(w: World, xs: seq<Move>, m: World, ys: seq<Move>, w': World)
    requires Run(w, xs, m) && Run(m, ys, w')
    ensures Run(w, xs + ys, w')
    decreases |xs|
  {
    hide Next, Enabled;
    if xs == [] {
      assert xs + ys == ys;
    } else {
      assert (xs + ys)[1..] == xs[1..] + ys;
      RunsOn(Next(w, xs[0].at, xs[0].action), xs[1..], m, ys, w');
    }
  }

  lemma {:induction false} RunKeeps(w: World, moves: seq<Move>, w': World)
    requires WorldInv(w) && Run(w, moves, w')
    ensures WorldInv(w') && Grows(w.store, w'.store)
    decreases |moves|
  {
    if moves != [] {
      WorldKeeps(w, moves[0].at, moves[0].action);
      RunKeeps(Next(w, moves[0].at, moves[0].action), moves[1..], w');
    }
  }

  // ---- the guarded claim ----

  // The guard that the code lacks: no flush is in flight, or nothing awaits deletion.
  predicate SafeToStart(s: Service) {
    s.batcher.flushing ==> s.pending == []
  }

  predicate Guarded(w: World, m: Move) {
    m.action.FlushAndAck? && m.at < |w.services| ==> SafeToStart(w.services[m.at])
  }

  ghost predicate GuardedRun(w: World, moves: seq<Move>, w': World)
    decreases |moves|
  {
    if moves == [] then w == w'
    else Enabled(w, moves[0].at, moves[0].action) && Guarded(w, moves[0])
         && GuardedRun(Next(w, moves[0].at, moves[0].action), moves[1..], w')
  }

  ghost predicate AllDurable(st: Store, receipts: seq<nat>) {
    forall r :: r in receipts ==> Durable(st, r)
  }

  // The receipts line up with the packets they stand for: pending with the history buffer,
  // awaiting with the batch in flight; and whatever is being deleted is stored.
  ghost predicate AckInv(s: Service, st: Store) {
    && s.pending == Deliveries(s.batcher.historyBuffer)
    && s.awaiting == Deliveries(InFlight(s))
    && forall k :: 0 <= k < |s.acking| ==> AllDurable(st, s.acking[k])
  }

  lemma AckInvGrows(s: Service, st: Store, st': Store)
    requires AckInv(s, st) && Grows(st, st')
    ensures AckInv(s, st')
  {
    forall k, r | 0 <= k < |s.acking| && r in s.acking[k] ensures Durable(st', r) {
      assert AllDurable(st, s.acking[k]);
      DurableGrows(st, st', r);
    }
  }

  lemma DurableGrows(st: Store, st': Store, r: nat)
    requires Durable(st, r) && Grows(st, st')
    ensures Durable(st', r)
  {
    var p :| p in st.history && p.delivery == r;
    assert p in st'.history;
  }

  lemma DeliveriesConcat(a: seq<Packet>, b: seq<Packet>)
    ensures Deliveries(a + b) == Deliveries(a) + Deliveries(b)
  {
  }

  lemma FlushAndAckAligned(s: Service, st: Store)
    requires ServiceInv(s, st) && AckInv(s, st) && SafeToStart(s)
    ensures AckInv(StepService(s, st, FlushAndAck), st)
  {
    if NothingToFlush(s.batcher) {
      assert s.pending == [];
      var s' := StepService(s, st, FlushAndAck);
      assert AllDurable(st, []);
      assert s.batcher.historyBuffer == [];
      assert InFlight(s') == InFlight(s);
    }
  }

  lemma InsertDoneAligned(s: Service, st: Store)
    requires ServiceInv(s, st) && AckInv(s, st) && CanStep(s, InsertDone)
    ensures AckInv(StepService(s, st, InsertDone), st)
  {
    var f := s.flight.value;
    forall r | r in s.awaiting ensures Durable(st, r) {
      var k :| 0 <= k < |f.history| && f.history[k].delivery == r;
      assert f.history[k] in f.history;
    }
  }

  lemma ReceiveAligned(s: Service, st: Store, p: Packet)
    requires s.batcher.keepsHistory && AckInv(s, st) && CanStep(s, Receive(p))
    ensures AckInv(StepService(s, st, Receive(p)), st)
  {
    DeliveriesConcat(s.batcher.historyBuffer, [p]);
  }

  lemma FlushFailsAligned(s: Service, st: Store)
    requires AckInv(s, st) && CanStep(s, FlushFails)
    ensures AckInv(StepService(s, st, FlushFails), st)
  {
    DeliveriesConcat(s.flight.value.history, s.batcher.historyBuffer);
  }

  lemma DeleteChunkAligned(s: Service, st: Store, call: nat, accepted: set<nat>)
    requires AckInv(s, st) && CanStep(s, DeleteChunk(call, accepted))
    ensures AckInv(StepService(s, st, DeleteChunk(call, accepted)), st)
  {
    assert AllDurable(st, s.acking[call]);
  }

  lemma StepAligned(s: Service, st: Store, a: Action)
    requires ServiceInv(s, st) && StoreInv(st) && AckInv(s, st) && CanStep(s, a)
    requires a.FlushAndAck? ==> SafeToStart(s)
    ensures AckInv(StepService(s, st, a), StepStore(s, st, a))
  {
    match a
    case Receive(p) => ReceiveAligned(s, st, p);
    case FlushAndAck => FlushAndAckAligned(s, st);
    case InsertDone => InsertDoneAligned(s, st);
    case FlushFails => FlushFailsAligned(s, st);
    case DeleteChunk(call, accepted) => DeleteChunkAligned(s, st, call, accepted);
    case _ =>
    assert AckInv(StepService(s, st, a), st);
    hide AckInv, ServiceInv, StoreInv, StepService, StepStore;
    StepKeeps(s, st, a);
    AckInvGrows(StepService(s, st, a), st, StepStore(s, st, a));
  }

  ghost predicate Safe(w: World) {
    && (forall r :: r in w.deleted ==> Durable(w.store, r))
    && (forall i :: 0 <= i < |w.services| ==> AckInv(w.services[i], w.store))
  }

  lemma GuardedStepSafe(w: World, i: nat, a: Action)
    requires WorldInv(w) && Safe(w) && Enabled(w, i, a) && Guarded(w, Move(i, a))
    ensures Safe(Next(w, i, a))
  {
    var w' := Next(w, i, a);
    WorldKeeps(w, i, a);
    StepAligned(w.services[i], w.store, a);
    forall j | 0 <= j < |w'.services| ensures AckInv(w'.services[j], w'.store) {
      if j != i {
        AckInvGrows(w.services[j], w.store, w'.store);
      }
    }
    forall r | r in w'.deleted ensures Durable(w'.store, r) {
      if r !in w.deleted {
        var s := w.services[i];
        assert AllDurable(w.store, s.acking[a.call]);
        assert r in s.acking[a.call];
      }
      DurableGrows(w.store, w'.store, r);
    }
  }

  lemma {:induction false} GuardedRunSafe(w: World, moves: seq<Move>, w': World)
    requires WorldInv(w) && Safe(w) && GuardedRun(w, moves, w')
    ensures WorldInv(w') && Safe(w')
    decreases |moves|
  {
    if moves != [] {
      WorldKeeps(w, moves[0].at, moves[0].action);
      GuardedStepSafe(w, moves[0].at, moves[0].action);
      GuardedRunSafe(Next(w, moves[0].at, moves[0].action), moves[1..], w');
    }
  }

  // The main claim: in every guarded run of any number of instances, with failed flushes,
  // partial writes and crashes, a deleted message's packet is in the history collection and
  // its vehicle's document carries a timestamp at least as new.
  lemma DeletedImpliesDurable(n: nat, moves: seq<Move>, w: World, r: nat)
    requires GuardedRun(Initial(n), moves, w) && r in w.deleted
    ensures exists p :: p in w.store.history && p.delivery == r && StoredAt(w.store, p.vehicleID, p.timestamp)
    ensures forall p :: p in w.store.history ==>
              p.vehicleID in w.store.docs && Timestamp in w.store.docs[p.vehicleID]
              && w.store.docs[p.vehicleID][Timestamp].Num? && w.store.docs[p.vehicleID][Timestamp].n >= p.timestamp
  {
    hide GuardedRun, WorldInv, Safe, StoredAt;
    InitialInv(n);
    InitialSafe(n);
    GuardedRunSafe(Initial(n), moves, w);
    DeletedIsDurable(w, r);
  }

  lemma InitialSafe(n: nat)
    ensures Safe(Initial(n))
  {
  }

  lemma DeletedIsDurable(w: World, r: nat)
    requires WorldInv(w) && Safe(w) && r in w.deleted
    ensures exists p :: p in w.store.history && p.delivery == r && StoredAt(w.store, p.vehicleID, p.timestamp)
    ensures forall p :: p in w.store.history ==>
              p.vehicleID in w.store.docs && Timestamp in w.store.docs[p.vehicleID]
              && w.store.docs[p.vehicleID][Timestamp].Num? && w.store.docs[p.vehicleID][Timestamp].n >= p.timestamp
  {
    HistoryIsStored(w.store);
    hide ServiceInv, AckInv, StoredAt;
    SomeRecord(w.store, r);
  }

  lemma SomeRecord(st: Store, r: nat)
    requires Durable(st, r) && forall q :: q in st.history ==> StoredAt(st, q.vehicleID, q.timestamp)
    ensures exists p :: p in st.history && p.delivery == r && StoredAt(st, p.vehicleID, p.timestamp)
  {
    var p :| p in st.history && p.delivery == r;
  }

  lemma HistoryIsStored(st: Store)
    requires StoreInv(st)
    ensures forall q :: q in st.history ==>
              && StoredAt(st, q.vehicleID, q.timestamp)
              && q.vehicleID in st.docs && Timestamp in st.docs[q.vehicleID]
              && st.docs[q.vehicleID][Timestamp].Num? && st.docs[q.vehicleID][Timestamp].n >= q.timestamp
  {
    forall q | q in st.history ensures StoredAt(st, q.vehicleID, q.timestamp) && WinnerInv(st, q.vehicleID) {}
  }

  // ---- what holds without the guard ----

  ghost predicate InMemory(w: World, r: nat) {
    exists i :: 0 <= i < |w.services| && r in Deliveries(Unstored(w.services[i]))
  }

  ghost predicate Received(s: Service, r: nat) {
    r in Deliveries(s.log)
  }

  // Every receipt an instance holds, at whatever stage, is for a packet it has received.
  ghost predicate OwnReceipts(s: Service) {
    && (forall r :: r in s.pending ==> Received(s, r))
    && (forall r :: r in s.awaiting ==> Received(s, r))
    && (forall k, r :: 0 <= k < |s.acking| && r in s.acking[k] ==> Received(s, r))
  }

  ghost predicate Accounted(w: World, r: nat) {
    Durable(w.store, r) || InMemory(w, r) || r in w.lost
  }

  ghost predicate Traced(w: World) {
    && (forall i :: 0 <= i < |w.services| ==> OwnReceipts(w.services[i]))
    && (forall r :: r in w.deleted ==> Accounted(w, r))
  }

  // A received packet is stored or still in memory.
  lemma ReceivedIsHeld(s: Service, st: Store, r: nat)
    requires ServiceInv(s, st) && Received(s, r)
    ensures Durable(st, r) || r in Deliveries(Unstored(s))
  {
    var k :| 0 <= k < |s.log| && s.log[k].delivery == r;
    if k < |s.committed| {
      assert s.log[k] == s.committed[k] && s.committed[k] in s.committed;
    } else {
      assert Unstored(s)[k - |s.committed|] == s.log[k];
      assert Deliveries(Unstored(s))[k - |s.committed|] == r;
    }
  }

  lemma StepOwnReceipts(s: Service, st: Store, a: Action)
    requires ServiceInv(s, st) && OwnReceipts(s) && CanStep(s, a)
    ensures OwnReceipts(StepService(s, st, a))
    ensures !a.Crash? ==> forall r :: Received(s, r) ==> Received(StepService(s, st, a), r)
  {
    var s' := StepService(s, st, a);
    if a.Receive? {
      DeliveriesConcat(s.log, [a.p]);
      assert Deliveries([a.p])[0] == a.p.delivery;
    }
    forall k, r | 0 <= k < |s'.acking| && r in s'.acking[k] ensures Received(s', r) {
      if k < |s.acking| {
        assert r in s.acking[k];
      } else {
        assert s'.acking[k] == s.pending || s'.acking[k] == s.awaiting;
      }
      assert Received(s, r);
    }
  }

  lemma StillAccounted(w: World, i: nat, a: Action, r: nat)
    requires WorldInv(w) && Traced(w) && Enabled(w, i, a) && Accounted(w, r)
    ensures Accounted(Next(w, i, a), r)
  {
    var w' := Next(w, i, a);
    var s := w.services[i];
    WorldKeeps(w, i, a);
    if Durable(w.store, r) {
      DurableGrows(w.store, w'.store, r);
    } else if r !in w.lost {
      var j :| 0 <= j < |w.services| && r in Deliveries(Unstored(w.services[j]));
      if j != i {
        assert w'.services[j] == w.services[j];
      } else if !a.Crash? {
        DeliveriesConcat(s.committed, Unstored(s));
        StepOwnReceipts(s, w.store, a);
        assert Received(w'.services[i], r);
        ReceivedIsHeld(w'.services[i], w'.store, r);
      }
    }
  }

  lemma StepTraced(w: World, i: nat, a: Action)
    requires WorldInv(w) && Traced(w) && Enabled(w, i, a)
    ensures Traced(Next(w, i, a))
  {
    var w' := Next(w, i, a);
    StepOwnReceipts(w.services[i], w.store, a);
    forall r | r in w'.deleted ensures Accounted(w', r) {
      if r !in w.deleted {
        assert r in w.services[i].acking[a.call];
        ReceivedIsHeld(w.services[i], w.store, r);
      }
      StillAccounted(w, i, a, r);
    }
  }

  lemma {:induction false} RunTraced(w: World, moves: seq<Move>, w': World)
    requires WorldInv(w) && Traced(w) && Run(w, moves, w')
    ensures WorldInv(w') && Traced(w')
    decreases |moves|
  {
    if moves != [] {
      WorldKeeps(w, moves[0].at, moves[0].action);
      StepTraced(w, moves[0].at, moves[0].action);
      RunTraced(Next(w, moves[0].at, moves[0].action), moves[1..], w');
    }
  }

  // The claim that needs no guard: a deleted message's packet is stored, or some instance
  // still holds it, or an instance crashed while holding it.
  lemma DeletedIsAccountedFor(n: nat, moves: seq<Move>, w: World, r: nat)
    requires Run(Initial(n), moves, w) && r in w.deleted
    ensures Durable(w.store, r) || InMemory(w, r) || r in w.lost
  {
    InitialInv(n);
    RunTraced(Initial(n), moves, w);
  }

  // ---- the guard is exactly what is missing ----

  ghost predicate DistinctDeliveries(log: seq<Packet>) {
    forall a, b :: 0 <= a < b < |log| ==> log[a].delivery != log[b].delivery
  }

  // Deliveries are told apart: each has one owner, and while a flush is in flight nothing in
  // the history buffer has been written.
  ghost predicate Unique(w: World) {
    && (forall i :: 0 <= i < |w.services| ==> UniqueAt(w, i))
    && (forall q :: q in w.store.history ==> q.delivery in w.owner)
  }

  ghost predicate UniqueAt(w: World, i: nat)
    requires i < |w.services|
  {
    var s := w.services[i];
    && DistinctDeliveries(s.log)
    && (forall p :: p in s.log ==> p.delivery in w.owner && w.owner[p.delivery] == i)
    && (s.flight.Some? ==> forall p :: p in s.batcher.historyBuffer ==> !Durable(w.store, p.delivery))
  }

  lemma UnstoredInLog(s: Service, st: Store)
    requires ServiceInv(s, st)
    ensures forall p :: p in InFlight(s) ==> p in s.log
    ensures forall p :: p in s.batcher.historyBuffer ==> p in s.log
  {
  }

  lemma FlightApartFromBuffer(w: World, i: nat, p: Packet, q: Packet)
    requires WorldInv(w) && i < |w.services| && UniqueAt(w, i)
    requires p in InFlight(w.services[i]) && q in w.services[i].batcher.historyBuffer
    ensures p.delivery != q.delivery
  {
    var s := w.services[i];
    var c, f := |s.committed|, |InFlight(s)|;
    var a :| 0 <= a < f && InFlight(s)[a] == p;
    var b :| 0 <= b < |s.batcher.historyBuffer| && s.batcher.historyBuffer[b] == q;
    assert s.log[c + a] == p && s.log[c + f + b] == q;
  }

  lemma StepUnique(w: World, i: nat, a: Action)
    requires WorldInv(w) && Unique(w) && Enabled(w, i, a)
    ensures Unique(Next(w, i, a))
  {
    var w' := Next(w, i, a);
    assert UniqueAt(w, i);
    if a.InsertOne? {
      assert a.q in multiset(w.services[i].flight.value.history);
      UnstoredInLog(w.services[i], w.store);
    }
    forall j | 0 <= j < |w'.services| ensures UniqueAt(w', j) {
      assert UniqueAt(w, j);
      if j == i {
        StepUniqueAtOwn(w, i, a);
      } else {
        StepUniqueAtOther(w, i, a, j);
      }
    }
  }

  lemma NewlyDurable(w: World, i: nat, a: Action, r: nat)
    requires WorldInv(w) && Enabled(w, i, a) && !Durable(w.store, r) && Durable(Next(w, i, a).store, r)
    ensures a.InsertOne? && a.q.delivery == r && a.q in InFlight(w.services[i])
  {
    var q :| q in Next(w, i, a).store.history && q.delivery == r;
    assert q !in w.store.history;
    assert a.InsertOne? && q == a.q;
    assert q in multiset(w.services[i].flight.value.history);
  }

  lemma StepUniqueAtOther(w: World, i: nat, a: Action, j: nat)
    requires WorldInv(w) && Enabled(w, i, a) && UniqueAt(w, i)
    requires j < |w.services| && j != i && UniqueAt(w, j)
    ensures UniqueAt(Next(w, i, a), j)
  {
    var w' := Next(w, i, a);
    var s := w.services[j];
    UnstoredInLog(s, w.store);
    UnstoredInLog(w.services[i], w.store);
    forall p | s.flight.Some? && p in s.batcher.historyBuffer ensures !Durable(w'.store, p.delivery) {
      if Durable(w'.store, p.delivery) {
        NewlyDurable(w, i, a, p.delivery);
      }
    }
  }

  lemma StepUniqueAtOwn(w: World, i: nat, a: Action)
    requires WorldInv(w) && Unique(w) && Enabled(w, i, a)
    ensures UniqueAt(Next(w, i, a), i)
  {
    StepToldApart(w, i, a);
    StepUnwritten(w, i, a);
    hide WorldInv, Unique, Next, Enabled, Durable, DistinctDeliveries;
  }

  lemma StepToldApart(w: World, i: nat, a: Action)
    requires Unique(w) && Enabled(w, i, a)
    ensures var s' := Next(w, i, a).services[i];
            DistinctDeliveries(s'.log)
            && forall p :: p in s'.log ==> p.delivery in Next(w, i, a).owner && Next(w, i, a).owner[p.delivery] == i
  {
    assert UniqueAt(w, i);
    StepLogs(w.services[i], w.store, a);
    hide StepService, StepStore, Durable;
  }

  lemma StepLogs(s: Service, st: Store, a: Action)
    requires CanStep(s, a)
    ensures StepService(s, st, a).log == match a case Receive(p) => s.log + [p] case Crash => [] case _ => s.log
  {
  }

  lemma StepUnwritten(w: World, i: nat, a: Action)
    requires WorldInv(w) && Unique(w) && Enabled(w, i, a)
    ensures var s' := Next(w, i, a).services[i];
            s'.flight.Some? ==> forall p :: p in s'.batcher.historyBuffer ==> !Durable(Next(w, i, a).store, p.delivery)
  {
    var w' := Next(w, i, a);
    var s, s' := w.services[i], w'.services[i];
    assert UniqueAt(w, i);
    StepBuffer(s, w.store, a);
    forall p | s'.flight.Some? && p in s'.batcher.historyBuffer ensures !Durable(w'.store, p.delivery) {
      NotYetWritten(w, i, a, p);
    }
  }

  // While a flush is in flight after the step, what is then buffered was buffered before, with
  // a flush in flight, or has just arrived.
  lemma StepBuffer(s: Service, st: Store, a: Action)
    requires ServiceInv(s, st) && CanStep(s, a)
    ensures var s' := StepService(s, st, a);
            s'.flight.Some? ==> forall p :: p in s'.batcher.historyBuffer ==>
              (p in s.batcher.historyBuffer && s.flight.Some?) || (a.Receive? && p == a.p)
  {
  }

  lemma NotYetWritten(w: World, i: nat, a: Action, p: Packet)
    requires WorldInv(w) && Unique(w) && Enabled(w, i, a)
    requires (p in w.services[i].batcher.historyBuffer && w.services[i].flight.Some?) || (a.Receive? && p == a.p)
    ensures !Durable(Next(w, i, a).store, p.delivery)
  {
    assert UniqueAt(w, i);
    if p in w.services[i].batcher.historyBuffer && Durable(Next(w, i, a).store, p.delivery) {
      NewlyDurable(w, i, a, p.delivery);
      FlightApartFromBuffer(w, i, a.q, p);
    }
  }

  lemma InitialUnique(n: nat)
    ensures Unique(Initial(n)) && Safe(Initial(n))
  {
    forall i | 0 <= i < n ensures AckInv(Initial(n).services[i], Initial(n).store) && UniqueAt(Initial(n), i) {
      assert Initial(n).services[i] == Started();
    }
  }

  lemma {:induction false} RunUnique(w: World, moves: seq<Move>, w': World)
    requires WorldInv(w) && Unique(w) && Run(w, moves, w')
    ensures WorldInv(w') && Unique(w')
    decreases |moves|
  {
    if moves != [] {
      WorldKeeps(w, moves[0].at, moves[0].action);
      StepUnique(w, moves[0].at, moves[0].action);
      RunUnique(Next(w, moves[0].at, moves[0].action), moves[1..], w');
    }
  }

  lemma {:induction false} GuardedRunIsRun(w: World, moves: seq<Move>, w': World)
    requires GuardedRun(w, moves, w')
    ensures Run(w, moves, w')
    decreases |moves|
  {
    if moves != [] {
      GuardedRunIsRun(Next(w, moves[0].at, moves[0].action), moves[1..], w');
    }
  }

  lemma GuardedReach(n: nat, moves: seq<Move>, w: World)
    requires GuardedRun(Initial(n), moves, w)
    ensures WorldInv(w) && Safe(w) && Unique(w)
  {
    InitialInv(n);
    InitialUnique(n);
    hide WorldInv, Safe, Unique;
    GuardedRunSafe(Initial(n), moves, w);
    GuardedRunIsRun(Initial(n), moves, w);
    RunUnique(Initial(n), moves, w);
  }

  // What is deleted, and what the delete loops have yet to delete, is stored.
  ghost predicate DeletesOnlyStored(w: World) {
    && (forall r :: r in w.deleted ==> Durable(w.store, r))
    && (forall i, k :: 0 <= i < |w.services| && 0 <= k < |w.services[i].acking| ==>
        AllDurable(w.store, w.services[i].acking[k]))
  }

  lemma UnsafeStartAcksUnstored(w: World, i: nat)
    requires WorldInv(w) && Safe(w) && Unique(w) && i < |w.services| && !SafeToStart(w.services[i])
    ensures Next(w, i, FlushAndAck).services[i].acking == w.services[i].acking + [w.services[i].pending]
    ensures w.services[i].pending != [] && !Durable(w.store, w.services[i].pending[0])
    ensures w.services[i].pending[0] in Deliveries(w.services[i].batcher.historyBuffer)
  {
    var s := w.services[i];
    assert UniqueAt(w, i);
    assert s.batcher.historyBuffer[0] in s.batcher.historyBuffer && s.pending[0] == s.batcher.historyBuffer[0].delivery;
  }

  // After any guarded run, starting flushAndAck keeps deletions to stored packets if and only
  // if no flush is in flight or no receipt is pending.
  lemma StartIsSafeExactly(n: nat, moves: seq<Move>, w: World, i: nat)
    requires GuardedRun(Initial(n), moves, w) && i < |w.services|
    ensures DeletesOnlyStored(Next(w, i, FlushAndAck)) <==> SafeToStart(w.services[i])
  {
    GuardedReach(n, moves, w);
    var s := w.services[i];
    var w' := Next(w, i, FlushAndAck);
    if SafeToStart(s) {
      GuardedStepSafe(w, i, FlushAndAck);
      forall j, k | 0 <= j < |w'.services| && 0 <= k < |w'.services[j].acking|
        ensures AllDurable(w'.store, w'.services[j].acking[k])
      {
        assert AckInv(w'.services[j], w'.store);
      }
    } else {
      UnsafeStartAcksUnstored(w, i);
      assert w'.services[i].acking[|s.acking|] == s.pending && s.pending[0] in s.pending;
      assert !AllDurable(w'.store, w'.services[i].acking[|s.acking|]);
    }
  }

  // The message of receipt r is gone from the queue, and its packet is neither stored nor
  // held by any instance.
  ghost predicate Loses(w: World, moves: seq<Move>, w': World, r: nat) {
    Run(w, moves, w') && r in w'.deleted && !Durable(w'.store, r) && !InMemory(w', r)
  }

  // And every unsafe start can lose data: the receipt is deleted, then the instance crashes.
  // A shutdown during a flush is such a run: the last flushAndAck returns at once, deletes
  // the pending receipts, and the process exits.
  lemma UnsafeStartCanLose(n: nat, moves: seq<Move>, w: World, i: nat)
    requires GuardedRun(Initial(n), moves, w) && i < |w.services| && !SafeToStart(w.services[i])
    ensures exists k, r, w' :: Loses(w, [Move(i, FlushAndAck)] + [Move(i, DeleteChunk(k, {r})), Move(i, Crash)], w', r)
  {
    hide WorldInv, Safe, Unique, GuardedRun, Next, Loses, Durable, Deliveries;
    GuardedReach(n, moves, w);
    UnsafeStartAcksUnstored(w, i);
    var r := w.services[i].pending[0];
    var k := |w.services[i].acking|;
    var w' := LosingSteps(w, i, k, r);
    assert Loses(w, [Move(i, FlushAndAck)] + [Move(i, DeleteChunk(k, {r})), Move(i, Crash)], w', r);
  }

  lemma LosingSteps(w: World, i: nat, k: nat, r: nat) returns (w': World)
    requires WorldInv(w) && Unique(w) && i < |w.services| && k == |w.services[i].acking|
    requires !Durable(w.store, r) && r in Deliveries(w.services[i].batcher.historyBuffer)
    requires w.services[i].pending != [] && r == w.services[i].pending[0]
    requires Next(w, i, FlushAndAck).services[i].acking == w.services[i].acking + [w.services[i].pending]
    ensures Loses(w, [Move(i, FlushAndAck)] + [Move(i, DeleteChunk(k, {r})), Move(i, Crash)], w', r)
  {
    hide WorldInv, Unique, Next, Enabled, Durable, Deliveries, InMemory, Run;
    var w1 := FlushStep(w, i);
    var w2 := DropStep(w1, i, k, r);
    w' := CrashStep(w2, i);
    RunThree(w, [Move(i, FlushAndAck)] + [Move(i, DeleteChunk(k, {r})), Move(i, Crash)], w1, w2, w');
    HeldByOneOnly(w, i, w', r);
  }

  ghost predicate OthersSame(w: World, w': World, i: nat) {
    |w'.services| == |w.services| && forall j :: 0 <= j < |w.services| && j != i ==> w'.services[j] == w.services[j]
  }

  lemma FlushStep(w: World, i: nat) returns (w': World)
    requires i < |w.services|
    ensures Enabled(w, i, FlushAndAck) && w' == Next(w, i, FlushAndAck)
    ensures OthersSame(w, w', i) && w'.store == w.store
  {
    w' := Next(w, i, FlushAndAck);
  }

  lemma DropStep(w: World, i: nat, k: nat, r: nat) returns (w': World)
    requires i < |w.services| && k < |w.services[i].acking| && w.services[i].acking[k] != []
    requires r == w.services[i].acking[k][0]
    ensures Enabled(w, i, DeleteChunk(k, {r})) && w' == Next(w, i, DeleteChunk(k, {r}))
    ensures OthersSame(w, w', i) && w'.store == w.store && r in w'.deleted
  {
    assert r == FirstChunk(w.services[i].acking[k])[0];
    w' := Next(w, i, DeleteChunk(k, {r}));
  }

  lemma CrashStep(w: World, i: nat) returns (w': World)
    requires i < |w.services|
    ensures Enabled(w, i, Crash) && w' == Next(w, i, Crash)
    ensures OthersSame(w, w', i) && w'.store == w.store && w'.deleted == w.deleted && Unstored(w'.services[i]) == []
  {
    w' := Next(w, i, Crash);
  }

  lemma HeldByOneOnly(w: World, i: nat, w': World, r: nat)
    requires WorldInv(w) && Unique(w) && i < |w.services| && r in Deliveries(w.services[i].batcher.historyBuffer)
    requires OthersSame(w, w', i) && Unstored(w'.services[i]) == []
    ensures !InMemory(w', r)
  {
    OwnedHere(w, i, r);
    forall j | 0 <= j < |w'.services| ensures r !in Deliveries(Unstored(w'.services[j])) {
      if j != i {
        NotElsewhere(w, j, r);
      }
    }
    hide WorldInv, Unique, Unstored;
  }

  lemma OwnedHere(w: World, i: nat, r: nat)
    requires WorldInv(w) && Unique(w) && i < |w.services| && r in Deliveries(w.services[i].batcher.historyBuffer)
    ensures r in w.owner && w.owner[r] == i
  {
    assert UniqueAt(w, i);
    UnstoredInLog(w.services[i], w.store);
    var p :| p in w.services[i].batcher.historyBuffer && p.delivery == r;
  }

  lemma NotElsewhere(w: World, j: nat, r: nat)
    requires WorldInv(w) && Unique(w) && j < |w.services| && r in w.owner && w.owner[r] != j
    ensures r !in Deliveries(Unstored(w.services[j]))
  {
    assert UniqueAt(w, j);
    UnstoredInLog(w.services[j], w.store);
    forall k | 0 <= k < |Unstored(w.services[j])| ensures Unstored(w.services[j])[k].delivery != r {
      assert Unstored(w.services[j])[k] in w.services[j].log;
    }
  }

  lemma RunThree(w: World, moves: seq<Move>, w1: World, w2: World, w3: World)
    requires |moves| == 3
    requires Enabled(w, moves[0].at, moves[0].action) && w1 == Next(w, moves[0].at, moves[0].action)
    requires Enabled(w1, moves[1].at, moves[1].action) && w2 == Next(w1, moves[1].at, moves[1].action)
    requires Enabled(w2, moves[2].at, moves[2].action) && w3 == Next(w2, moves[2].at, moves[2].action)
    ensures Run(w, moves, w3)
  {
    assert moves[1..][0] == moves[1] && moves[1..][1..][0] == moves[2];
    assert Run(w3, moves[1..][1..][1..], w3);
    assert Run(w2, moves[1..][1..], w3);
    assert Run(w1, moves[1..], w3);
  }

  // Such a state is reached from the start: a packet arrives, its flush begins, and another
  // packet arrives before the flush ends. The timer firing now is the unsafe start.
  lemma UnsafeStartIsReachable(p: Packet, q: Packet)
    requires p.delivery != q.delivery && p.timestamp >= MIN_SAFE && q.timestamp >= MIN_SAFE
    ensures exists w :: GuardedRun(Initial(1), [Move(0, Receive(p)), Move(0, FlushAndAck), Move(0, Receive(q))], w)
                        && |w.services| == 1 && !SafeToStart(w.services[0])
  {
    var w1 := Next(Initial(1), 0, Receive(p));
    var w2 := Next(w1, 0, FlushAndAck);
    var w := Next(w2, 0, Receive(q));
    var moves := [Move(0, Receive(p)), Move(0, FlushAndAck), Move(0, Receive(q))];
    assert moves[1..][0] == moves[1] && moves[1..][1..][0] == moves[2];
    assert GuardedRun(w, moves[1..][1..][1..], w);
    assert GuardedRun(w2, moves[1..][1..], w);
    assert GuardedRun(w1, moves[1..], w);
    assert GuardedRun(Initial(1), moves, w);
  }
}
