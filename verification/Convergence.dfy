// What the database converges to with several instances: the newest timestamp.
module Convergence {
  import opened Packets
  import opened Ingestion
  import opened DeleteAfterFlush
  import opened Documents

  // A packet that arrived is stored, in some instance's memory, or was lost in a crash.
  ghost predicate Whereabouts(w: World, p: Packet) {
    || p in w.store.history
    || p.delivery in w.lost
    || exists i :: 0 <= i < |w.services| && p in Unstored(w.services[i])
  }

  ghost predicate NoneForgotten(w: World) {
    forall p :: p in w.arrived ==> Whereabouts(w, p)
  }

  lemma UnstoredOrCommitted(s: Service, st: Store, a: Action, p: Packet)
    requires ServiceInv(s, st) && StoreInv(st) && CanStep(s, a) && !a.Crash? && p in Unstored(s)
    ensures p in Unstored(StepService(s, st, a)) || p in StepStore(s, st, a).history
  {
    StepKeeps(s, st, a);
    LogGrows(s, st, a);
    hide StepService, StepStore, StoreInv, FlightInv;
    UnstoredIsLogged(s, st, p);
    LoggedIsHeld(StepService(s, st, a), StepStore(s, st, a), p);
  }

  lemma UnstoredIsLogged(s: Service, st: Store, p: Packet)
    requires ServiceInv(s, st) && p in Unstored(s)
    ensures p in s.log
  {
    var k :| 0 <= k < |Unstored(s)| && Unstored(s)[k] == p;
    assert s.log[|s.committed| + k] == p;
  }

  lemma LoggedIsHeld(s: Service, st: Store, p: Packet)
    requires ServiceInv(s, st) && p in s.log
    ensures p in st.history || p in Unstored(s)
  {
    assert p in s.committed || p in Unstored(s);
  }

  lemma LogGrows(s: Service, st: Store, a: Action)
    requires CanStep(s, a) && !a.Crash?
    ensures s.log <= StepService(s, st, a).log
  {
  }

  lemma StepWhereabouts(w: World, i: nat, a: Action, p: Packet)
    requires WorldInv(w) && Enabled(w, i, a) && Whereabouts(w, p)
    ensures Whereabouts(Next(w, i, a), p)
  {
    var w' := Next(w, i, a);
    WorldKeeps(w, i, a);
    if p in w.store.history {
      assert p in w'.store.history;
    } else if p.delivery !in w.lost {
      var j :| 0 <= j < |w.services| && p in Unstored(w.services[j]);
      if j != i {
        assert w'.services[j] == w.services[j];
      } else {
        StepOwnWhereabouts(w, i, a, p);
      }
    }
  }

  lemma StepOwnWhereabouts(w: World, i: nat, a: Action, p: Packet)
    requires WorldInv(w) && Enabled(w, i, a) && p in Unstored(w.services[i])
    ensures Whereabouts(Next(w, i, a), p)
  {
    if a.Crash? {
      var k :| 0 <= k < |Unstored(w.services[i])| && Unstored(w.services[i])[k] == p;
      assert Deliveries(Unstored(w.services[i]))[k] == p.delivery;
    } else {
      hide StepService, StepStore, Unstored;
      UnstoredOrCommitted(w.services[i], w.store, a, p);
      assert p in Next(w, i, a).store.history || p in Unstored(Next(w, i, a).services[i]);
    }
  }

  lemma StepNoneForgotten(w: World, i: nat, a: Action)
    requires WorldInv(w) && NoneForgotten(w) && Enabled(w, i, a)
    ensures NoneForgotten(Next(w, i, a))
  {
    var w' := Next(w, i, a);
    forall p | p in w'.arrived ensures Whereabouts(w', p) {
      if p in w.arrived {
        StepWhereabouts(w, i, a, p);
      } else {
        var s' := w'.services[i];
        assert s'.batcher.historyBuffer[|s'.batcher.historyBuffer| - 1] == p;
        assert p in Unstored(s');
      }
    }
  }

  lemma {:induction false} NoneForgottenRun(w: World, moves: seq<Move>, w': World)
    requires WorldInv(w) && NoneForgotten(w) && FromArrivals(w) && Run(w, moves, w')
    ensures WorldInv(w') && NoneForgotten(w') && FromArrivals(w')
    decreases |moves|
  {
    if moves != [] {
      var i, a := moves[0].at, moves[0].action;
      WorldKeeps(w, i, a);
      StepNoneForgotten(w, i, a);
      StepFromArrivals(w, i, a);
      NoneForgottenRun(Next(w, i, a), moves[1..], w');
    }
  }

  ghost predicate Drained(w: World) {
    forall i :: 0 <= i < |w.services| ==> Unstored(w.services[i]) == []
  }

  // Any number of instances in any interleaving, with redelivered messages: once nothing is
  // in memory, a vehicle's document carries the maximum timestamp of the packets that any
  // instance received for it and that no crash lost, or that of a newer one that had already
  // been written when its instance crashed.
  lemma Converges(n: nat, moves: seq<Move>, w: World, p: Packet)
    requires Run(Initial(n), moves, w) && Drained(w) && p in w.arrived && p.delivery !in w.lost
    ensures p.vehicleID in w.store.winner && w.store.winner[p.vehicleID] in w.arrived
    ensures p in w.store.history && w.store.winner[p.vehicleID].timestamp >= p.timestamp
    ensures w.store.winner[p.vehicleID].vehicleID == p.vehicleID
    ensures p.vehicleID in w.store.docs && Timestamp in w.store.docs[p.vehicleID]
    ensures w.store.docs[p.vehicleID][Timestamp] == Num(w.store.winner[p.vehicleID].timestamp)
  {
    InitialInv(n);
    NoneForgottenRun(Initial(n), moves, w);
    assert Whereabouts(w, p);
    assert StoredAt(w.store, p.vehicleID, p.timestamp);
    assert WinnerInv(w.store, p.vehicleID);
  }

  // ts is the greatest timestamp of the packets of a vehicle that count.
  ghost predicate Greatest(w: World, id: string, ts: real) {
    && (exists p :: p in Counted(w) && p.vehicleID == id && p.timestamp == ts)
    && (forall p :: p in Counted(w) && p.vehicleID == id ==> p.timestamp <= ts)
  }

  // So a drained database holds a document of exactly the vehicles of which a packet counts,
  // with exactly the greatest timestamp of those; and if no crash lost any, of all packets
  // that any instance received.
  lemma ConvergesExactly(n: nat, moves: seq<Move>, w: World, id: string)
    requires Run(Initial(n), moves, w) && Drained(w)
    ensures id in w.store.docs <==> exists p :: p in Counted(w) && p.vehicleID == id
    ensures id in w.store.docs ==> Timestamp in w.store.docs[id] && w.store.docs[id][Timestamp].Num?
                                   && Greatest(w, id, w.store.docs[id][Timestamp].n)
    ensures w.lost == {} ==> forall p :: p in Counted(w) <==> p in w.arrived
  {
    InitialInv(n);
    NoneForgottenRun(Initial(n), moves, w);
    hide Run, WorldInv, NoneForgotten, FromArrivals, Drained;
    CountedAreStored(w, id);
    EveryArrivalCounts(w);
    KeysAgree(w);
    hide Counted, Greatest;
    if id in w.store.winner {
      WinnerCounts(w, id);
      WinnerIsGreatest(w, id);
    }
  }

  lemma WinnerIsGreatest(w: World, id: string)
    requires id in w.store.winner && w.store.winner[id] in Counted(w) && w.store.winner[id].vehicleID == id
    requires forall p :: p in Counted(w) && p.vehicleID == id ==> p.timestamp <= w.store.winner[id].timestamp
    ensures Greatest(w, id, w.store.winner[id].timestamp)
  {
  }

  lemma CountedAreStored(w: World, id: string)
    requires WorldInv(w) && NoneForgotten(w) && Drained(w)
    ensures forall p :: p in Counted(w) && p.vehicleID == id ==>
              id in w.store.winner && p.timestamp <= w.store.winner[id].timestamp
  {
    forall p | p in Counted(w) && p.vehicleID == id
      ensures id in w.store.winner && p.timestamp <= w.store.winner[id].timestamp
    {
      CountedIsStored(w, p);
    }
  }

  lemma KeysAgree(w: World)
    requires WorldInv(w)
    ensures w.store.docs.Keys == w.store.winner.Keys
  {
  }

  lemma EveryArrivalCounts(w: World)
    ensures w.lost == {} ==> forall p :: p in Counted(w) <==> p in w.arrived
  {
  }

  lemma WinnerCounts(w: World, id: string)
    requires WorldInv(w) && FromArrivals(w) && id in w.store.winner
    ensures w.store.winner[id] in Counted(w) && w.store.winner[id].vehicleID == id
    ensures id in w.store.docs && Timestamp in w.store.docs[id]
    ensures w.store.docs[id][Timestamp] == Num(w.store.winner[id].timestamp)
  {
    assert WinnerInv(w.store, id);
  }

  lemma CountedIsStored(w: World, p: Packet)
    requires WorldInv(w) && NoneForgotten(w) && Drained(w) && p in Counted(w)
    ensures StoredAt(w.store, p.vehicleID, p.timestamp) && p.vehicleID in w.store.docs
  {
    if p !in w.store.written {
      assert Whereabouts(w, p);
    }
  }

  // And along the way no stored timestamp ever decreases.
  lemma TimestampsNeverRegress(n: nat, before: seq<Move>, w: World, after: seq<Move>, w': World, id: string)
    requires Run(Initial(n), before, w) && Run(w, after, w') && id in w.store.docs
    ensures id in w'.store.docs && Timestamp in w.store.docs[id] && Timestamp in w'.store.docs[id]
    ensures w.store.docs[id][Timestamp].Num? && w'.store.docs[id][Timestamp].Num?
    ensures w.store.docs[id][Timestamp].n <= w'.store.docs[id][Timestamp].n
  {
    InitialInv(n);
    RunKeeps(Initial(n), before, w);
    RunKeeps(w, after, w');
    assert WinnerInv(w.store, id);
    assert StoredAt(w.store, id, w.store.winner[id].timestamp);
    assert StoredAt(w'.store, id, w.store.winner[id].timestamp);
    assert WinnerInv(w'.store, id);
  }
}
