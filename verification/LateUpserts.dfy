// What a write that was given up and lands late can do to what a single instance has stored:
// the exact condition under which it regresses a document, last write wins in all runs in
// which none does, and a run in which one does.
module LateUpserts {
  import opened Basics
  import opened Packets
  import opened LastWriteWins
  import opened Batching
  import opened Ingestion
  import opened DeleteAfterFlush
  import opened Documents
  import opened SingleInstance

  // ---- what is stored ----

  // The upsert of p, landing now, puts an earlier arrival over a later one of the same
  // timestamp: p ties with the newest packet written, did not arrive after it, and differs.
  ghost predicate Regresses<T>(key: Packet -> T, w: World, p: Packet) {
    var newest := NewestWritten(w, p.vehicleID);
    newest.Some? && p.timestamp == newest.value.timestamp && !Before(w.arrived, newest.value, p)
    && key(p) != key(newest.value)
  }

  // A landing in terms of the stored packet, the newest written, and whether p arrived later.
  lemma LandingExactly<T>(key: Packet -> T, won: Option<Packet>, newest: Option<Packet>, p: Packet, later: bool)
    requires IsKey(key) && Alike(key, won, newest)
    ensures Alike(key, Merge(won, Some(p)),
                  if newest.Some? && (p.timestamp < newest.value.timestamp
                                      || (p.timestamp == newest.value.timestamp && !later))
                  then newest else Some(p))
            <==> !(newest.Some? && p.timestamp == newest.value.timestamp && !later && key(p) != key(newest.value))
  {
  }

  lemma LandedWritten(w: World, p: Packet)
    requires Single(w) && Enabled(w, 0, LateUpsert(p))
    ensures var w' := Next(w, 0, LateUpsert(p));
            && NewestWritten(w', p.vehicleID) == Joined(w.arrived, NewestWritten(w, p.vehicleID), p)
            && Expected(w', p.vehicleID) == Joined(w.arrived, Expected(w, p.vehicleID), p)
            && Held(w'.store.winner, p.vehicleID) == Merge(Held(w.store.winner, p.vehicleID), Some(p))
  {
    LandingFacts(w, p);
    UpsertedDocs(w.store, p);
    ApartPackets(w);
    NewestJoined(w.arrived, w.store.written, p);
    NewestJoined(w.arrived, Counted(w), p);
    hide Next, Only, Newest, Counted, Joined, Single, Upserted;
  }

  // The exact condition: in every reachable state in which the stored packet is right, the
  // landing of p keeps it right if and only if it does not regress it.
  lemma LateUpsertRegressesExactly<T>(key: Packet -> T, moves: seq<Move>, w: World, p: Packet)
    requires IsKey(key) && Run(Initial(1), moves, w) && Enabled(w, 0, LateUpsert(p)) && StoredRight(key, w, p.vehicleID)
    ensures StoredRight(key, Next(w, 0, LateUpsert(p)), p.vehicleID) <==> !Regresses(key, w, p)
  {
    SingleReached(moves, w);
    LandedRight(key, w, p);
  }

  lemma LandedRight<T>(key: Packet -> T, w: World, p: Packet)
    requires IsKey(key) && Single(w) && Enabled(w, 0, LateUpsert(p)) && StoredRight(key, w, p.vehicleID)
    ensures StoredRight(key, Next(w, 0, LateUpsert(p)), p.vehicleID) <==> !Regresses(key, w, p)
  {
    hide Next, Enabled, Single, NewestWritten, Before, Held, Alike, IsKey;
    LandedWritten(w, p);
    var newest := NewestWritten(w, p.vehicleID);
    LandingExactly(key, Held(w.store.winner, p.vehicleID), newest, p,
                   newest.Some? && Before(w.arrived, newest.value, p));
  }

  lemma OthersLand<T>(key: Packet -> T, w: World, p: Packet, id: string)
    requires Single(w) && Enabled(w, 0, LateUpsert(p)) && StoredRight(key, w, id) && p.vehicleID != id
    ensures StoredRight(key, Next(w, 0, LateUpsert(p)), id)
  {
    LandingFacts(w, p);
    UpsertedDocs(w.store, p);
    OnlyOther(w.arrived, w.store.written, p, id);
    hide Next, Only, Newest, Single, Upserted, Alike;
  }

  // Steps that upsert nothing.
  lemma QuietStored<T>(key: Packet -> T, w: World, a: Action, id: string)
    requires Single(w) && Enabled(w, 0, a) && !a.ApplyUpsert? && !a.LateUpsert? && StoredRight(key, w, id)
    ensures StoredRight(key, Next(w, 0, a), id)
  {
    var w' := Next(w, 0, a);
    QuietStore(w.services[0], w.store, a);
    assert w'.arrived == if a.Receive? then w.arrived + [a.p] else w.arrived;
    if a.Receive? {
      FreshIsUnwritten(w, a.p);
      OnlyConcat(w.arrived, [a.p], w.store.written);
      OnlyNone([a.p], w.store.written);
      assert Only(w.arrived, w.store.written) + [] == Only(w.arrived, w.store.written);
    }
    hide Next, Single, Only, Newest, Alike, StepStore;
  }

  lemma QuietStore(s: Service, st: Store, a: Action)
    requires CanStep(s, a) && !a.ApplyUpsert? && !a.LateUpsert?
    ensures StepStore(s, st, a).winner == st.winner && StepStore(s, st, a).written == st.written
  {
  }

  lemma FreshIsUnwritten(w: World, p: Packet)
    requires Single(w) && Enabled(w, 0, Receive(p))
    ensures p !in w.store.written && p !in w.arrived
  {
    assert p in w.store.written ==> p in w.arrived;
  }

  // The instance's own upsert: its packet is the newest of what is in memory and written.
  lemma AppliedStored<T>(key: Packet -> T, w: World, k: string)
    requires IsKey(key) && Single(w) && Enabled(w, 0, ApplyUpsert(k)) && StoredRight(key, w, k)
    ensures StoredRight(key, Next(w, 0, ApplyUpsert(k)), k)
  {
    AppliedWritten(w, k);
    hide Next, Single, Only, Newest, Alike, IsKey, Enabled;
    AppliedAlgebra(key, Held(w.store.winner, k), Newest(Only(Prior(w), w.store.written), k),
                   Newest(Only(InFlight(w.services[0]), w.store.written), k), w.services[0].flight.value.batch[k]);
  }

  lemma AppliedAlgebra<T>(key: Packet -> T, won: Option<Packet>, before: Option<Packet>, sent: Option<Packet>,
                          p: Packet)
    requires IsKey(key) && Alike(key, won, Merge(before, sent)) && (sent.Some? ==> sent.value.timestamp <= p.timestamp)
    ensures Alike(key, Merge(won, Some(p)), Merge(before, Some(p)))
  {
  }

  lemma AppliedWritten(w: World, k: string)
    requires Single(w) && Enabled(w, 0, ApplyUpsert(k))
    ensures var w' := Next(w, 0, ApplyUpsert(k)); var p := w.services[0].flight.value.batch[k];
            var before := Newest(Only(Prior(w), w.store.written), k);
            var sent := Newest(Only(InFlight(w.services[0]), w.store.written), k);
            && NewestWritten(w, k) == Merge(before, sent) && (sent.Some? ==> sent.value.timestamp <= p.timestamp)
            && NewestWritten(w', k) == Merge(before, Some(p))
            && Held(w'.store.winner, k) == Merge(Held(w.store.winner, k), Some(p))
  {
    var s := w.services[0];
    var p := s.flight.value.batch[k];
    var written := w.store.written;
    FlightPacket(s, w.store, k);
    NotPrior(w, p);
    BufferApartFromFlight(w, p);
    ApplyFacts(w, k);
    assert Held(s.flight.value.batch, k) == Newest(InFlight(s), k);
    forall q | q in s.batcher.historyBuffer ensures q !in written {}
    WrittenInParts(w, written, k);
    WrittenInParts(w, written + {p}, k);
    NewestKept(InFlight(s), written, k);
    NewestKept(InFlight(s), written + {p}, k);
    OnlyAgrees(Prior(w), written, written + {p});
  }

  lemma ApplyFacts(w: World, k: string)
    requires Single(w) && Enabled(w, 0, ApplyUpsert(k))
    ensures var w' := Next(w, 0, ApplyUpsert(k)); var p := w.services[0].flight.value.batch[k];
            w'.arrived == w.arrived && w'.lost == w.lost && w'.store == Upserted(w.store, p) && p.vehicleID == k
            && w'.store.written == w.store.written + {p}
            && Held(w'.store.winner, k) == Merge(Held(w.store.winner, k), Some(p))
  {
    FlightPacket(w.services[0], w.store, k);
    hide RunUpsert, UpsertOf;
  }

  // Nothing buffered is written while a flush is in flight.
  lemma WrittenInParts(w: World, keep: set<Packet>, id: string)
    requires |w.services| == 1 && InOrder(w) && forall q :: q in w.services[0].batcher.historyBuffer ==> q !in keep
    ensures Newest(Only(w.arrived, keep), id) ==
            Merge(Newest(Only(Prior(w), keep), id), Newest(Only(InFlight(w.services[0]), keep), id))
  {
    InParts(w, keep, id);
    OnlyConcat(InFlight(w.services[0]), w.services[0].batcher.historyBuffer, keep);
    OnlyNone(w.services[0].batcher.historyBuffer, keep);
    assert Only(InFlight(w.services[0]), keep) + [] == Only(InFlight(w.services[0]), keep);
  }

  lemma OthersApplied<T>(key: Packet -> T, w: World, k: string, id: string)
    requires Single(w) && Enabled(w, 0, ApplyUpsert(k)) && StoredRight(key, w, id) && k != id
    ensures StoredRight(key, Next(w, 0, ApplyUpsert(k)), id)
  {
    ApplyFacts(w, k);
    UpsertedDocs(w.store, w.services[0].flight.value.batch[k]);
    OnlyOther(w.arrived, w.store.written, w.services[0].flight.value.batch[k], id);
    hide Next, Only, Newest, Single, Upserted, Alike;
  }

  ghost predicate InTurn<T>(key: Packet -> T, id: string, w: World, a: Action) {
    a.LateUpsert? && a.late.vehicleID == id ==> !Regresses(key, w, a.late)
  }

  lemma StoredStep<T>(key: Packet -> T, w: World, a: Action, id: string)
    requires IsKey(key) && Single(w) && Enabled(w, 0, a) && InTurn(key, id, w, a) && StoredRight(key, w, id)
    ensures StoredRight(key, Next(w, 0, a), id)
  {
    hide Single, Next, Enabled, StoredRight, IsKey, Regresses;
    if a.LateUpsert? {
      if a.late.vehicleID == id {
        LandedRight(key, w, a.late);
      } else {
        OthersLand(key, w, a.late, id);
      }
    } else if a.ApplyUpsert? {
      if a.id == id {
        AppliedStored(key, w, id);
      } else {
        OthersApplied(key, w, a.id, id);
      }
    } else {
      QuietStored(key, w, a, id);
    }
  }

  // No late upsert of the run regresses what is stored of the vehicle.
  ghost predicate OrderlyRun<T>(key: Packet -> T, id: string, w: World, moves: seq<Move>, w': World)
    decreases |moves|
  {
    if moves == [] then w == w'
    else Enabled(w, moves[0].at, moves[0].action) && InTurn(key, id, w, moves[0].action)
         && OrderlyRun(key, id, Next(w, moves[0].at, moves[0].action), moves[1..], w')
  }

  lemma {:induction false} OrderlyIsRun<T>(key: Packet -> T, id: string, w: World, moves: seq<Move>, w': World)
    requires OrderlyRun(key, id, w, moves, w')
    ensures Run(w, moves, w')
    decreases |moves|
  {
    hide Next, Enabled, InTurn;
    if moves != [] {
      OrderlyIsRun(key, id, Next(w, moves[0].at, moves[0].action), moves[1..], w');
    }
  }

  // A run without late upserts is one.
  lemma {:induction false} PromptRunIsOrderly<T>(key: Packet -> T, id: string, w: World, moves: seq<Move>, w': World)
    requires Run(w, moves, w') && forall k :: 0 <= k < |moves| ==> !moves[k].action.LateUpsert?
    ensures OrderlyRun(key, id, w, moves, w')
    decreases |moves|
  {
    if moves != [] {
      PromptRunIsOrderly(key, id, Next(w, moves[0].at, moves[0].action), moves[1..], w');
    }
  }

  lemma {:induction false} StoredRun<T>(key: Packet -> T, id: string, w: World, moves: seq<Move>, w': World)
    requires IsKey(key) && Single(w) && StoredRight(key, w, id) && OrderlyRun(key, id, w, moves, w')
    ensures Single(w') && StoredRight(key, w', id)
    decreases |moves|
  {
    hide Single, Next, Enabled, StoredRight, IsKey, InTurn;
    if moves != [] {
      OnlyOne(w, moves[0]);
      SingleStep(w, moves[0].action);
      StoredStep(key, w, moves[0].action, id);
      StoredRun(key, id, Next(w, moves[0].at, moves[0].action), moves[1..], w');
    }
  }

  // From every reachable state in which a vehicle's stored packet is right it stays right,
  // through crashes too, until a late upsert regresses it.
  lemma StaysRight<T>(key: Packet -> T, before: seq<Move>, w: World, moves: seq<Move>, w': World, id: string)
    requires IsKey(key) && Run(Initial(1), before, w) && StoredRight(key, w, id) && OrderlyRun(key, id, w, moves, w')
    ensures StoredRight(key, w', id)
  {
    SingleReached(before, w);
    StoredRun(key, id, w, moves, w');
  }

  // And once regressed it is right again as soon as the instance writes a packet at least as
  // new as the stored one.
  lemma NewerWriteRepairs(moves: seq<Move>, w: World, id: string)
    requires Run(Initial(1), moves, w) && Enabled(w, 0, ApplyUpsert(id))
    requires id in w.store.winner ==> w.store.winner[id].timestamp <= w.services[0].flight.value.batch[id].timestamp
    ensures Held(Next(w, 0, ApplyUpsert(id)).store.winner, id) == NewestWritten(Next(w, 0, ApplyUpsert(id)), id)
  {
    SingleReached(moves, w);
    hide Run;
    Repaired(w, id);
  }

  lemma Repaired(w: World, id: string)
    requires Single(w) && Enabled(w, 0, ApplyUpsert(id))
    requires id in w.store.winner ==> w.store.winner[id].timestamp <= w.services[0].flight.value.batch[id].timestamp
    ensures Held(Next(w, 0, ApplyUpsert(id)).store.winner, id) == NewestWritten(Next(w, 0, ApplyUpsert(id)), id)
  {
    AppliedWritten(w, id);
    assert StoreInv(w.store);
    hide Single, Next, Only, Newest, Enabled, NewestWritten, StoreInv, Prior, Merge;
    WrittenIsStored(w, Prior(w), id);
    BothLast(Held(w.store.winner, id), Newest(Only(Prior(w), w.store.written), id),
             w.services[0].flight.value.batch[id]);
  }

  lemma BothLast(won: Option<Packet>, before: Option<Packet>, p: Packet)
    requires won.Some? ==> won.value.timestamp <= p.timestamp
    requires before.Some? ==> won.Some? && before.value.timestamp <= won.value.timestamp
    ensures Merge(won, Some(p)) == Merge(before, Some(p))
  {
  }

  // The stored packet is at least as new as every one written.
  lemma WrittenIsStored(w: World, log: seq<Packet>, id: string)
    requires StoreInv(w.store)
    ensures var n := Newest(Only(log, w.store.written), id);
            n.Some? ==> id in w.store.winner && n.value.timestamp <= w.store.winner[id].timestamp
  {
    NewestIsOwn(Only(log, w.store.written), id);
    OnlyMembers(log, w.store.written);
    var n := Newest(Only(log, w.store.written), id);
    if n.Some? {
      assert StoredAt(w.store, id, n.value.timestamp);
    }
  }

  // ---- stored and in memory together ----

  // In terms of what was written before, what in memory is written, all of it, and what is yet
  // to be upserted.
  lemma MergedAlgebra<T>(key: Packet -> T, won: Option<Packet>, before: Option<Packet>, written: Option<Packet>,
                         hand: Option<Packet>, unsaved: Option<Packet>)
    requires IsKey(key) && Alike(key, won, Merge(before, written)) && MemoryParts(written, hand, unsaved)
    ensures Alike(key, Merge(won, unsaved), Merge(before, hand))
    ensures Alike(key, Merge(won, hand), Merge(before, hand))
  {
  }

  lemma StoredGivesMerged<T>(key: Packet -> T, w: World, id: string)
    requires IsKey(key) && Single(w) && StoredRight(key, w, id)
    ensures MergedRight(key, w, id)
    ensures Alike(key, Merge(Held(w.store.winner, id), InHand(w.services[0], id)), Expected(w, id))
  {
    ExpectedInParts(w, id);
    MemoryInParts(w, id);
    hide Single, Only, Newest, Alike, IsKey, MemoryParts, InHand, Unsaved;
    MergedAlgebra(key, Held(w.store.winner, id), Newest(Only(Prior(w), w.store.written), id),
                  Newest(Only(Unstored(w.services[0]), w.store.written), id),
                  InHand(w.services[0], id), Unsaved(w.services[0], id));
  }

  // At every point of every single-instance run, through partial bulk writes, failures,
  // retries and crashes, in which no late upsert has regressed it: a vehicle's document shows
  // the last to arrive of maximal timestamp of all packets written; merged with what is in
  // memory, or with what is yet to be upserted, it gives the last to arrive of maximal
  // timestamp of all packets that no crash lost.
  lemma LastWriteWinsAlways<T>(key: Packet -> T, moves: seq<Move>, w: World, id: string)
    requires IsKey(key) && OrderlyRun(key, id, Initial(1), moves, w)
    ensures |w.services| == 1
    ensures Alike(key, Held(w.store.winner, id), NewestWritten(w, id))
    ensures Alike(key, Merge(Held(w.store.winner, id), InHand(w.services[0], id)), Expected(w, id))
    ensures Alike(key, Merge(Held(w.store.winner, id), Unsaved(w.services[0], id)), Expected(w, id))
    ensures id in w.store.docs <==> id in w.store.winner
    ensures id in w.store.docs ==> Shows(w.store.docs[id], w.store.winner[id])
    ensures Unstored(w.services[0]) == [] ==> Alike(key, Held(w.store.winner, id), Expected(w, id))
  {
    InitialSingle();
    assert StoredRight(key, Initial(1), id);
    StoredRun(key, id, Initial(1), moves, w);
    OrderlyIsRun(key, id, Initial(1), moves, w);
    DocumentsShowOnePacket(1, moves, w, id);
    hide OrderlyRun, Run, Expected, NewestWritten, IsKey, Alike, Shows;
    StoredGivesMerged(key, w, id);
    if Unstored(w.services[0]) == [] {
      NothingInHand(w.services[0], w.store, id);
    }
  }

  lemma NothingInHand(s: Service, st: Store, id: string)
    requires ServiceInv(s, st) && Unstored(s) == []
    ensures InHand(s, id) == None && Unsaved(s, id) == None
  {
    assert InFlight(s) == [] && s.batcher.historyBuffer == [];
    assert Held(s.batcher.buffer, id) == Newest([], id);
    assert s.flight.Some? ==> Held(s.flight.value.batch, id) == Newest(s.flight.value.history, id);
  }

  // In particular, with no late upserts it is the very packet; and if no crash lost any, that
  // of all packets that have arrived.
  lemma LastWriteWinsPromptly(moves: seq<Move>, w: World, id: string)
    requires Run(Initial(1), moves, w) && forall k :: 0 <= k < |moves| ==> !moves[k].action.LateUpsert?
    ensures |w.services| == 1
    ensures Held(w.store.winner, id) == NewestWritten(w, id)
    ensures Merge(Held(w.store.winner, id), InHand(w.services[0], id)) == Expected(w, id)
    ensures Unstored(w.services[0]) == [] ==> Held(w.store.winner, id) == Expected(w, id)
    ensures w.lost == {} ==> Expected(w, id) == Newest(w.arrived, id)
  {
    var itself := (p: Packet) => p;
    PacketIsKey();
    PromptRunIsOrderly(itself, id, Initial(1), moves, w);
    LastWriteWinsAlways(itself, moves, w, id);
    if w.lost == {} {
      NothingLost(w, id);
    }
  }

  // ---- a regression that memory makes up for ----

  // The upsert of p, landing now, spoils what is stored and in memory together: it ties with
  // the newest, which is already upserted, did not arrive after it, and differs.
  ghost predicate Overwrites<T>(key: Packet -> T, w: World, p: Packet)
    requires |w.services| == 1
  {
    var newest := Expected(w, p.vehicleID);
    newest.Some? && p.timestamp == newest.value.timestamp && !Before(w.arrived, newest.value, p)
    && key(p) != key(newest.value) && !Alike(key, Unsaved(w.services[0], p.vehicleID), newest)
  }

  lemma MergedLanding<T>(key: Packet -> T, won: Option<Packet>, unsaved: Option<Packet>, newest: Option<Packet>,
                         p: Packet, later: bool)
    requires IsKey(key) && Alike(key, Merge(won, unsaved), newest)
    requires unsaved.Some? ==> newest.Some? && unsaved.value.timestamp <= newest.value.timestamp
    requires unsaved.Some? && unsaved.value.timestamp == newest.value.timestamp == p.timestamp ==> !later
    ensures Alike(key, Merge(Merge(won, Some(p)), unsaved),
                  if newest.Some? && (p.timestamp < newest.value.timestamp
                                      || (p.timestamp == newest.value.timestamp && !later))
                  then newest else Some(p))
            <==> !(newest.Some? && p.timestamp == newest.value.timestamp && !later && key(p) != key(newest.value)
                   && !Alike(key, unsaved, newest))
  {
  }

  // What is yet to be upserted is no newer than what should be stored; of the same timestamp
  // it is that, and nothing of that timestamp arrived after it.
  lemma UnsavedBound(w: World, id: string, p: Packet)
    requires Single(w) && p.vehicleID == id
    ensures var unsaved, newest := Unsaved(w.services[0], id), Expected(w, id);
            unsaved.Some? ==>
              && newest.Some? && unsaved.value.timestamp <= newest.value.timestamp
              && (unsaved.value.timestamp == newest.value.timestamp == p.timestamp ==>
                    !Before(w.arrived, newest.value, p))
  {
    hide Single, Only, Newest, Before, InHand, Unsaved, Unstored, Expected;
    ExpectedInParts(w, id);
    MemoryInParts(w, id);
    NothingAfterHand(w, id, p);
  }

  lemma NothingAfterHand(w: World, id: string, p: Packet)
    requires Single(w) && p.vehicleID == id
    ensures var hand := InHand(w.services[0], id);
            hand.Some? && hand.value.timestamp == p.timestamp ==> !Before(w.arrived, hand.value, p)
  {
    MemoryIsLogged(w.services[0], w.store, id);
    ApartPackets(w);
    var u := Unstored(w.services[0]);
    assert w.arrived == Prior(w) + u;
    hide Single, Newest, Before, InHand, Unstored, DistinctPackets, Prior;
    if Newest(u, id).Some? && Newest(u, id).value.timestamp == p.timestamp {
      NewestIsOwn(u, id);
      EndIsDistinct(Prior(w), u);
      NothingAfterNewest(u, id, p);
      AfterInEnd(Prior(w), u, Newest(u, id).value, p);
    }
  }

  lemma EndIsDistinct(front: seq<Packet>, end: seq<Packet>)
    requires DistinctPackets(front + end)
    ensures DistinctPackets(end)
  {
    assert forall k :: 0 <= k < |end| ==> end[k] == (front + end)[|front| + k];
  }

  lemma AfterInEnd(front: seq<Packet>, end: seq<Packet>, q: Packet, p: Packet)
    requires DistinctPackets(front + end) && q in end && !Before(end, q, p)
    ensures !Before(front + end, q, p)
  {
    var log := front + end;
    var k :| 0 <= k < |end| && end[k] == q;
    assert log[|front| + k] == q;
    forall i, j | 0 <= i < j < |log| && log[i] == q ensures log[j] != p {
      assert i == |front| + k;
      assert log[j] == end[j - |front|];
    }
  }

  // The exact condition for both together, in every reachable state.
  lemma LateUpsertHarmsExactly<T>(key: Packet -> T, moves: seq<Move>, w: World, p: Packet)
    requires IsKey(key) && Run(Initial(1), moves, w) && Enabled(w, 0, LateUpsert(p))
    requires |w.services| == 1 && MergedRight(key, w, p.vehicleID)
    ensures |Next(w, 0, LateUpsert(p)).services| == 1
    ensures MergedRight(key, Next(w, 0, LateUpsert(p)), p.vehicleID) <==> !Overwrites(key, w, p)
  {
    SingleReached(moves, w);
    MergedLands(key, w, p);
  }

  lemma MergedLands<T>(key: Packet -> T, w: World, p: Packet)
    requires IsKey(key) && Single(w) && Enabled(w, 0, LateUpsert(p)) && MergedRight(key, w, p.vehicleID)
    ensures |Next(w, 0, LateUpsert(p)).services| == 1
    ensures MergedRight(key, Next(w, 0, LateUpsert(p)), p.vehicleID) <==> !Overwrites(key, w, p)
  {
    LandingFacts(w, p);
    LandedWritten(w, p);
    UnsavedBound(w, p.vehicleID, p);
    hide Next, Enabled, Single, Expected, Before, Held, Alike, IsKey, Unsaved;
    var newest := Expected(w, p.vehicleID);
    MergedLanding(key, Held(w.store.winner, p.vehicleID), Unsaved(w.services[0], p.vehicleID), newest, p,
                  newest.Some? && Before(w.arrived, newest.value, p));
  }

  // A crash exposes what is stored: both together are right after it exactly if what is stored
  // was right before.
  lemma CrashExposes<T>(key: Packet -> T, moves: seq<Move>, w: World, id: string)
    requires Run(Initial(1), moves, w) && |w.services| == 1
    ensures |Next(w, 0, Crash).services| == 1
    ensures MergedRight(key, Next(w, 0, Crash), id) <==> StoredRight(key, w, id)
  {
    SingleReached(moves, w);
    CrashExposed(key, w, id);
  }

  lemma CrashExposed<T>(key: Packet -> T, w: World, id: string)
    requires Single(w)
    ensures |Next(w, 0, Crash).services| == 1
    ensures MergedRight(key, Next(w, 0, Crash), id) <==> StoredRight(key, w, id)
  {
    CrashFacts(w);
    var w' := Next(w, 0, Crash);
    SingleStep(w, Crash);
    assert PriorWritten(w', id) && Prior(w') == w'.arrived;
    NothingInHand(w'.services[0], w'.store, id);
    hide Single, Next, Only, Newest, Alike, Unsaved;
  }

  lemma AppliedMerged<T>(key: Packet -> T, won: Option<Packet>, before: Option<Packet>, sent: Option<Packet>,
                         buffered: Option<Packet>, settled: bool)
    requires IsKey(key)
    requires Alike(key, Merge(won, if settled then buffered else Merge(sent, buffered)),
                   Merge(before, Merge(sent, buffered)))
    ensures Alike(key, Merge(Merge(won, sent), buffered), Merge(before, Merge(sent, buffered)))
  {
  }

  lemma RestoredMerged<T>(key: Packet -> T, won: Option<Packet>, before: Option<Packet>, written: Option<Packet>,
                          hand: Option<Packet>, unsaved: Option<Packet>)
    requires IsKey(key) && Alike(key, Merge(won, unsaved), Merge(before, hand)) && MemoryParts(written, hand, unsaved)
    ensures Alike(key, Merge(won, hand), Merge(before, hand))
  {
  }

  lemma AlikeMerge<T>(key: Packet -> T, a: Option<Packet>, a': Option<Packet>, b: Option<Packet>)
    requires IsKey(key) && Alike(key, a, a')
    ensures Alike(key, Merge(a, b), Merge(a', b))
  {
  }

  // A packet received joins both sides of the merge.
  lemma ReceivedMerged<T>(key: Packet -> T, w: World, p: Packet, id: string)
    requires IsKey(key) && Single(w) && Enabled(w, 0, Receive(p)) && MergedRight(key, w, id)
    ensures MergedRight(key, Next(w, 0, Receive(p)), id)
  {
    var x := if p.vehicleID == id then Some(p) else None;
    ReceivedExpected(w, p, id);
    ReceivedUnsaved(w.services[0], w.store, p, id);
    MergeLaws(Held(w.store.winner, id), Unsaved(w.services[0], id), x);
    hide Single, Expected, Unsaved, StepService, Alike, IsKey;
    AlikeMerge(key, Merge(Held(w.store.winner, id), Unsaved(w.services[0], id)), Expected(w, id), x);
  }

  lemma ReceivedExpected(w: World, p: Packet, id: string)
    requires Single(w) && Enabled(w, 0, Receive(p))
    ensures Expected(Next(w, 0, Receive(p)), id) == Merge(Expected(w, id), if p.vehicleID == id then Some(p) else None)
  {
    var w' := Next(w, 0, Receive(p));
    ReceivedCounts(w, p);
    assert w'.arrived == w.arrived + [p];
    hide Single, Next, Counted;
    OnlyNext(w.arrived, p, Counted(w'), id);
    OnlyAgrees(w.arrived, Counted(w), Counted(w'));
  }

  lemma ReceivedUnsaved(s: Service, st: Store, p: Packet, id: string)
    requires CanStep(s, Receive(p))
    ensures Unsaved(StepService(s, st, Receive(p)), id) ==
            Merge(Unsaved(s, id), if p.vehicleID == id then Some(p) else None)
  {
    AddIsMerge(s.batcher.buffer, p, id);
    MergeLaws(Held(FlightBatch(s), id), Held(s.batcher.buffer, id), if p.vehicleID == id then Some(p) else None);
  }

  lemma ReceivedCounts(w: World, p: Packet)
    requires Single(w) && Enabled(w, 0, Receive(p))
    ensures p in Counted(Next(w, 0, Receive(p)))
    ensures forall q :: q in w.arrived ==> (q in Counted(w) <==> q in Counted(Next(w, 0, Receive(p))))
  {
    assert p.delivery !in w.lost;
  }

  // Steps by which nothing arrives, is lost or lands: what should be stored is the same.
  lemma ExpectedKept(w: World, a: Action, id: string)
    requires Single(w) && Enabled(w, 0, a) && !a.Receive? && !a.Crash? && !a.LateUpsert?
    ensures Expected(Next(w, 0, a), id) == Expected(w, id)
  {
    var w' := Next(w, 0, a);
    if a.ApplyUpsert? {
      ApplyFacts(w, a.id);
      var p := w.services[0].flight.value.batch[a.id];
      FlightPacket(w.services[0], w.store, a.id);
      assert p in Unstored(w.services[0]);
      assert p in w.arrived && p.delivery !in w.lost;
    }
    assert w'.arrived == w.arrived && w'.lost == w.lost;
    hide Single, Next;
    OnlyAgrees(w.arrived, Counted(w), Counted(w'));
  }

  lemma UpsertMerged<T>(key: Packet -> T, w: World, k: string, id: string)
    requires IsKey(key) && Single(w) && Enabled(w, 0, ApplyUpsert(k)) && MergedRight(key, w, id)
    ensures MergedRight(key, Next(w, 0, ApplyUpsert(k)), id)
  {
    var s := w.services[0];
    ExpectedKept(w, ApplyUpsert(k), id);
    ExpectedInParts(w, id);
    UpsertUnsaved(s, w.store, k, id);
    hide Single, Only, Newest, StepService, StepStore, Expected, Alike, IsKey;
    if k == id {
      AppliedMerged(key, Held(w.store.winner, id), Newest(Only(Prior(w), w.store.written), id),
                    Held(FlightBatch(s), id), Held(s.batcher.buffer, id), Settled(s, id));
    }
  }

  lemma UpsertUnsaved(s: Service, st: Store, k: string, id: string)
    requires ServiceInv(s, st) && CanStep(s, ApplyUpsert(k))
    ensures var s', st' := StepService(s, st, ApplyUpsert(k)), StepStore(s, st, ApplyUpsert(k));
            if k == id then
              Unsaved(s', id) == Held(s.batcher.buffer, id)
              && Held(st'.winner, id) == Merge(Held(st.winner, id), Held(FlightBatch(s), id))
            else
              Unsaved(s', id) == Unsaved(s, id) && Held(st'.winner, id) == Held(st.winner, id)
  {
    FlightPacket(s, st, k);
    UpsertedDocs(st, s.flight.value.batch[k]);
    hide RunUpsert, UpsertOf;
  }

  lemma FailedMerged<T>(key: Packet -> T, w: World, id: string)
    requires IsKey(key) && Single(w) && Enabled(w, 0, FlushFails) && MergedRight(key, w, id)
    ensures MergedRight(key, Next(w, 0, FlushFails), id)
  {
    var s := w.services[0];
    ExpectedKept(w, FlushFails, id);
    ExpectedInParts(w, id);
    MemoryInParts(w, id);
    FailedUnsaved(s, w.store, id);
    hide Single, Only, Newest, Expected, Alike, IsKey, MemoryParts, StepService, Unsaved, InHand;
    RestoredMerged(key, Held(w.store.winner, id), Newest(Only(Prior(w), w.store.written), id),
                   Newest(Only(Unstored(s), w.store.written), id), InHand(s, id), Unsaved(s, id));
  }

  lemma FailedUnsaved(s: Service, st: Store, id: string)
    requires CanStep(s, FlushFails)
    ensures Unsaved(StepService(s, st, FlushFails), id) == InHand(s, id)
  {
    PutBackIsMerge(s.flight.value.batch, s.batcher.buffer, id);
  }

  lemma QuietMerged<T>(key: Packet -> T, w: World, a: Action, id: string)
    requires Single(w) && Enabled(w, 0, a) && MergedRight(key, w, id)
    requires !a.Receive? && !a.ApplyUpsert? && !a.FlushFails? && !a.Crash? && !a.LateUpsert?
    ensures MergedRight(key, Next(w, 0, a), id)
  {
    ExpectedKept(w, a, id);
    QuietUnsaved(w.services[0], w.store, a, id);
    QuietStore(w.services[0], w.store, a);
    hide Single, Expected, Alike, Unsaved, StepService, StepStore;
  }

  lemma QuietUnsaved(s: Service, st: Store, a: Action, id: string)
    requires ServiceInv(s, st) && CanStep(s, a)
    requires !a.Receive? && !a.ApplyUpsert? && !a.FlushFails? && !a.Crash? && !a.LateUpsert?
    ensures Unsaved(StepService(s, st, a), id) == Unsaved(s, id)
  {
  }

  lemma OthersMerged<T>(key: Packet -> T, w: World, p: Packet, id: string)
    requires Single(w) && Enabled(w, 0, LateUpsert(p)) && MergedRight(key, w, id) && p.vehicleID != id
    ensures |Next(w, 0, LateUpsert(p)).services| == 1 && MergedRight(key, Next(w, 0, LateUpsert(p)), id)
  {
    LandingFacts(w, p);
    UpsertedDocs(w.store, p);
    OnlyOther(w.arrived, Counted(w), p, id);
    hide Next, Only, Newest, Single, Upserted, Alike, Counted, Unsaved;
  }

  // No late upsert of the run overwrites the newest of a vehicle, and no crash comes while only
  // memory makes up for a regressed document.
  ghost predicate Harmless<T>(key: Packet -> T, id: string, w: World, a: Action)
    requires |w.services| == 1
  {
    && (a.LateUpsert? && a.late.vehicleID == id ==> !Overwrites(key, w, a.late))
    && (a.Crash? ==> StoredRight(key, w, id))
  }

  ghost predicate HarmlessRun<T>(key: Packet -> T, id: string, w: World, moves: seq<Move>, w': World)
    decreases |moves|
  {
    if moves == [] then w == w'
    else |w.services| == 1 && Enabled(w, moves[0].at, moves[0].action) && Harmless(key, id, w, moves[0].action)
         && HarmlessRun(key, id, Next(w, moves[0].at, moves[0].action), moves[1..], w')
  }

  lemma MergedStep<T>(key: Packet -> T, w: World, a: Action, id: string)
    requires IsKey(key) && Single(w) && Enabled(w, 0, a) && Harmless(key, id, w, a) && MergedRight(key, w, id)
    ensures Single(Next(w, 0, a)) && MergedRight(key, Next(w, 0, a), id)
  {
    SingleStep(w, a);
    if a.Receive? {
      ReceivedMerged(key, w, a.p, id);
    } else if a.ApplyUpsert? {
      UpsertMerged(key, w, a.id, id);
    } else if a.FlushFails? {
      FailedMerged(key, w, id);
    } else if a.Crash? {
      CrashExposed(key, w, id);
    } else if a.LateUpsert? {
      if a.late.vehicleID == id {
        MergedLands(key, w, a.late);
      } else {
        OthersMerged(key, w, a.late, id);
      }
    } else {
      QuietMerged(key, w, a, id);
    }
  }

  lemma {:induction false} MergedRun<T>(key: Packet -> T, id: string, w: World, moves: seq<Move>, w': World)
    requires IsKey(key) && Single(w) && MergedRight(key, w, id) && HarmlessRun(key, id, w, moves, w')
    ensures Single(w') && MergedRight(key, w', id)
    decreases |moves|
  {
    if moves != [] {
      OnlyOne(w, moves[0]);
      MergedStep(key, w, moves[0].action, id);
      hide Next, Enabled, IsKey, Harmless;
      MergedRun(key, id, Next(w, moves[0].at, moves[0].action), moves[1..], w');
    }
  }

  // From every reachable state in which both together are right they stay right as long as the
  // run is harmless, whether or not the document alone is.
  lemma MemoryMakesUp<T>(key: Packet -> T, before: seq<Move>, w: World, moves: seq<Move>, w': World, id: string)
    requires IsKey(key) && Run(Initial(1), before, w) && |w.services| == 1 && MergedRight(key, w, id)
    requires HarmlessRun(key, id, w, moves, w')
    ensures |w'.services| == 1 && MergedRight(key, w', id)
    ensures Unstored(w'.services[0]) == [] ==> Alike(key, Held(w'.store.winner, id), Expected(w', id))
  {
    SingleReached(before, w);
    MergedRun(key, id, w, moves, w');
    if Unstored(w'.services[0]) == [] {
      NothingInHand(w'.services[0], w'.store, id);
    }
  }

  // ---- the documents ----

  // Once a single instance is drained the database holds, of each vehicle, the last to arrive
  // of maximal timestamp of the packets not lost: nothing of a vehicle that never reported;
  // every field of that packet otherwise; and exactly that packet if the vehicle's field set
  // is fixed.
  lemma DrainedHoldsNewest(moves: seq<Move>, w: World, shape: Shape, id: string)
    requires OrderlyRun(DocOf, id, Initial(1), moves, w)
    ensures |w.services| == 1
    ensures Unstored(w.services[0]) == [] ==> (id in w.store.docs <==> Expected(w, id).Some?)
    ensures Unstored(w.services[0]) == [] && id in w.store.docs ==> Shows(w.store.docs[id], Expected(w, id).value)
    ensures Unstored(w.services[0]) == [] && id in w.store.docs && Shaped(w.arrived, shape) ==>
              w.store.docs[id] == DocOf(Expected(w, id).value)
    ensures Unstored(w.services[0]) == [] && id in w.store.docs ==>
              var newest := Expected(w, id).value;
              && newest.rest.Keys - {ObjectID} + {VehicleID, Timestamp} <= w.store.docs[id].Keys
              && w.store.docs[id][Timestamp] == Num(newest.timestamp)
              && forall k :: k in newest.rest && k !in {VehicleID, ObjectID, Timestamp} ==>
                   w.store.docs[id][k] == newest.rest[k]
    ensures Unstored(w.services[0]) == [] && id in w.store.docs && Shaped(w.arrived, shape) ==>
              w.store.docs[id].Keys == Expected(w, id).value.rest.Keys - {ObjectID} + {VehicleID, Timestamp}
  {
    DocumentIsKey();
    LastWriteWinsAlways(DocOf, moves, w, id);
    OrderlyIsRun(DocOf, id, Initial(1), moves, w);
    if Shaped(w.arrived, shape) && id in w.store.docs {
      DocumentsAreWholePackets(1, moves, w, shape, id);
    }
    if Unstored(w.services[0]) == [] && id in w.store.docs {
      ShowsFields(w.store.docs[id], Expected(w, id).value);
      DocumentFields(Expected(w, id).value);
    }
  }

  // The packets have the same value in every field that both have.
  ghost predicate Agree(p: Packet, q: Packet) {
    forall k :: k in DocOf(p) && k in DocOf(q) ==> DocOf(p)[k] == DocOf(q)[k]
  }

  // A landing on a document, in terms of the stored packet and the newest written.
  lemma LandingShows(doc: Doc, won: Option<Packet>, newest: Option<Packet>, p: Packet, later: bool)
    requires if won.None? then Timestamp !in doc else Shows(doc, won.value) && won.value.vehicleID == p.vehicleID
    requires won.Some? ==> Timestamp in doc && doc[Timestamp] == Num(won.value.timestamp)
    requires Alike(DocOf, won, newest) && p.timestamp >= MIN_SAFE
    requires newest.Some? ==> newest.value.vehicleID == p.vehicleID
    ensures var right := if newest.Some? && (p.timestamp < newest.value.timestamp
                                             || (p.timestamp == newest.value.timestamp && !later))
                         then newest.value else p;
            Shows(Applied(doc, p), right) <==>
            !(newest.Some? && p.timestamp == newest.value.timestamp && !later && !Agree(p, newest.value))
  {
  }

  // The exact harm to the document: a late upsert leaves it showing the newest packet written,
  // unless it ties with that one, did not arrive after it, and differs in a field both have.
  lemma LateUpsertShowsExactly(moves: seq<Move>, w: World, p: Packet)
    requires Run(Initial(1), moves, w) && Enabled(w, 0, LateUpsert(p)) && StoredRight(DocOf, w, p.vehicleID)
    ensures var w' := Next(w, 0, LateUpsert(p)); var newest := NewestWritten(w, p.vehicleID);
            && p.vehicleID in w'.store.docs && NewestWritten(w', p.vehicleID).Some?
            && (Shows(w'.store.docs[p.vehicleID], NewestWritten(w', p.vehicleID).value)
                <==> !(newest.Some? && p.timestamp == newest.value.timestamp && !Before(w.arrived, newest.value, p)
                       && !Agree(p, newest.value)))
  {
    SingleReached(moves, w);
    DocumentsShowOnePacket(1, moves, w, p.vehicleID);
    LandsOnDocument(w, p);
  }

  lemma LandsOnDocument(w: World, p: Packet)
    requires Single(w) && Enabled(w, 0, LateUpsert(p)) && StoredRight(DocOf, w, p.vehicleID)
    requires p.vehicleID in w.store.docs ==> Shows(w.store.docs[p.vehicleID], w.store.winner[p.vehicleID])
    ensures var w' := Next(w, 0, LateUpsert(p)); var newest := NewestWritten(w, p.vehicleID);
            && p.vehicleID in w'.store.docs && NewestWritten(w', p.vehicleID).Some?
            && (Shows(w'.store.docs[p.vehicleID], NewestWritten(w', p.vehicleID).value)
                <==> !(newest.Some? && p.timestamp == newest.value.timestamp && !Before(w.arrived, newest.value, p)
                       && !Agree(p, newest.value)))
  {
    var id, st := p.vehicleID, w.store;
    StoreFacts(w, p);
    hide *;
    LandedDocument(w, p);
    WrittenIsOwn(w, id);
    StoredShows(w, id);
    StoredAlike(w, id);
    var newest := NewestWritten(w, id);
    LandingShows(Start(st.docs, id), Held(st.winner, id), newest, p,
                 newest.Some? && Before(w.arrived, newest.value, p));
    JoinedIs(w.arrived, newest, p);
  }

  lemma StoreFacts(w: World, p: Packet)
    requires Single(w) && Enabled(w, 0, LateUpsert(p))
    ensures p.timestamp >= MIN_SAFE && StoreInv(w.store) && w.store.docs.Keys == w.store.winner.Keys
  {
  }

  lemma LandedDocument(w: World, p: Packet)
    requires Single(w) && Enabled(w, 0, LateUpsert(p))
    ensures var w' := Next(w, 0, LateUpsert(p));
            && p.vehicleID in w'.store.docs
            && w'.store.docs[p.vehicleID] == Applied(Start(w.store.docs, p.vehicleID), p)
            && NewestWritten(w', p.vehicleID) == Joined(w.arrived, NewestWritten(w, p.vehicleID), p)
  {
    LandingFacts(w, p);
    LandedWritten(w, p);
    hide Next, Single, NewestWritten, Upserted, Applied, Start, Joined;
    UpsertedDocs(w.store, p);
  }

  lemma StoredAlike(w: World, id: string)
    requires StoredRight(DocOf, w, id)
    ensures Alike(DocOf, Held(w.store.winner, id), NewestWritten(w, id))
  {
  }

  lemma JoinedIs(log: seq<Packet>, newest: Option<Packet>, p: Packet)
    ensures Joined(log, newest, p) ==
            if newest.Some? && (p.timestamp < newest.value.timestamp
                                || (p.timestamp == newest.value.timestamp && !Before(log, newest.value, p)))
            then newest else Some(p)
  {
  }

  lemma WrittenIsOwn(w: World, id: string)
    ensures NewestWritten(w, id).Some? ==> NewestWritten(w, id).value.vehicleID == id
  {
    NewestIsOwn(Only(w.arrived, w.store.written), id);
  }

  lemma StoredShows(w: World, id: string)
    requires StoreInv(w.store) && (id in w.store.docs ==>
        id in w.store.winner && Shows(w.store.docs[id], w.store.winner[id]))
    ensures var doc, won := Start(w.store.docs, id), Held(w.store.winner, id);
            if won.None? then Timestamp !in doc
            else Shows(doc, won.value) && won.value.vehicleID == id
                 && Timestamp in doc && doc[Timestamp] == Num(won.value.timestamp)
  {
    StartTime(w.store, id);
  }

  // With a fixed field set it leaves exactly that packet's document, unless it regresses it.
  lemma LateUpsertReplacesExactly(moves: seq<Move>, w: World, p: Packet, shape: Shape)
    requires Run(Initial(1), moves, w) && Enabled(w, 0, LateUpsert(p)) && StoredRight(DocOf, w, p.vehicleID)
    requires Shaped(w.arrived, shape)
    ensures var w' := Next(w, 0, LateUpsert(p));
            && p.vehicleID in w'.store.docs && NewestWritten(w', p.vehicleID).Some?
            && (w'.store.docs[p.vehicleID] == DocOf(NewestWritten(w', p.vehicleID).value) <==> !Regresses(DocOf, w, p))
  {
    var w' := Next(w, 0, LateUpsert(p));
    var after := moves + [Move(0, LateUpsert(p))];
    DocumentIsKey();
    LateUpsertRegressesExactly(DocOf, moves, w, p);
    SingleReached(moves, w);
    LandingFacts(w, p);
    LandedWritten(w, p);
    RunExtends(Initial(1), moves, w, Move(0, LateUpsert(p)));
    hide Run, Next, Single, Only, Newest, Upserted, Shows, Before, DocOf, Regresses;
    DocumentsShowOnePacket(1, after, w', p.vehicleID);
    DocumentsAreWholePackets(1, after, w', shape, p.vehicleID);
  }

  // ---- the harm is real ----

  // p is received and flushed, its bulk write is given up, q follows with the same timestamp
  // and both are stored; the process may restart; then the upsert of p lands. Nothing is in
  // memory and the last arrival of maximal timestamp is q, but the document has the values of
  // p wherever the two differ.
  lemma LateUpsertCanRegress(p: Packet, q: Packet, restart: bool) returns (moves: seq<Move>, w: World)
    requires p.delivery != q.delivery && p.vehicleID == q.vehicleID && p.timestamp == q.timestamp >= MIN_SAFE
    ensures Run(Initial(1), moves, w) && |w.services| == 1 && Unstored(w.services[0]) == []
    ensures Expected(w, p.vehicleID) == Some(q) && (restart ==> w.services[0] == Started())
    ensures p.vehicleID in w.store.docs && Shows(w.store.docs[p.vehicleID], p)
    ensures forall k :: k in DocOf(p) && k in DocOf(q) && DocOf(p)[k] != DocOf(q)[k] ==>
              k in w.store.docs[p.vehicleID] && w.store.docs[p.vehicleID][k] != DocOf(q)[k]
  {
    moves, w := GivenUp(p);
    moves, w := FlushedAgain(moves, w, p, q);
    moves, w := Saved(moves, w, p, q);
    moves, w := Drains(moves, w, p, q);
    moves, w := MayRestart(moves, w, p, q, restart);
    moves, w := Lands(moves, w, p, q);
    DocumentsShowOnePacket(1, moves, w, p.vehicleID);
  }

  // A run of a single instance, which has received these packets and lost none.
  ghost predicate Alone(moves: seq<Move>, w: World, log: seq<Packet>) {
    && Run(Initial(1), moves, w) && |w.services| == 1 && w.services[0].batcher.keepsHistory
    && w.arrived == log && w.lost == {}
  }

  lemma Then(before: seq<Move>, w: World, a: Action) returns (moves: seq<Move>)
    requires Run(Initial(1), before, w) && Enabled(w, 0, a)
    ensures Run(Initial(1), moves, Next(w, 0, a))
  {
    RunExtends(Initial(1), before, w, Move(0, a));
    moves := before + [Move(0, a)];
  }

  lemma FlushedFirst(p: Packet) returns (moves: seq<Move>, w: World)
    requires p.timestamp >= MIN_SAFE
    ensures Alone(moves, w, [p]) && w.owner.Keys == {p.delivery} && w.store.winner == map[]
    ensures w.services[0].flight == Some(Flight(map[p.vehicleID := p], [p], Upserting({})))
    ensures w.services[0].batcher.buffer == map[] && w.services[0].batcher.historyBuffer == []
  {
    w := Initial(1);
    assert Run(w, [], w);
    hide Run;
    moves := Then([], w, Receive(p));
    w := Next(w, 0, Receive(p));
    moves := Then(moves, w, FlushAndAck);
    w := Next(w, 0, FlushAndAck);
  }

  lemma GivenUp(p: Packet) returns (moves: seq<Move>, w: World)
    requires p.timestamp >= MIN_SAFE
    ensures Alone(moves, w, [p]) && p in w.adrift && w.owner.Keys == {p.delivery} && w.store.winner == map[]
    ensures w.services[0].flight.None? && !w.services[0].batcher.flushing
    ensures w.services[0].batcher.buffer == map[p.vehicleID := p] && w.services[0].batcher.historyBuffer == [p]
  {
    hide Run;
    moves, w := FlushedFirst(p);
    moves := Then(moves, w, FlushFails);
    assert w.services[0].flight.value.batch[p.vehicleID] == p;
    w := Next(w, 0, FlushFails);
  }

  lemma FlushedAgain(before: seq<Move>, w0: World, p: Packet, q: Packet) returns (moves: seq<Move>, w: World)
    requires p.delivery != q.delivery && p.vehicleID == q.vehicleID && p.timestamp == q.timestamp >= MIN_SAFE
    requires Alone(before, w0, [p]) && p in w0.adrift && w0.owner.Keys == {p.delivery} && w0.store.winner == map[]
    requires w0.services[0].flight.None? && !w0.services[0].batcher.flushing
    requires w0.services[0].batcher.buffer == map[p.vehicleID := p] && w0.services[0].batcher.historyBuffer == [p]
    ensures Alone(moves, w, [p, q]) && p in w.adrift && w.store.winner == map[]
    ensures w.services[0].flight == Some(Flight(map[p.vehicleID := q], [p, q], Upserting({})))
    ensures w.services[0].batcher.historyBuffer == []
  {
    hide Run;
    assert [p] + [q] == [p, q] && map[p.vehicleID := p][p.vehicleID := q] == map[p.vehicleID := q];
    moves := Then(before, w0, Receive(q));
    w := Next(w0, 0, Receive(q));
    moves := Then(moves, w, FlushAndAck);
    w := Next(w, 0, FlushAndAck);
  }

  lemma Saved(before: seq<Move>, w0: World, p: Packet, q: Packet) returns (moves: seq<Move>, w: World)
    requires Alone(before, w0, [p, q]) && p in w0.adrift && w0.store.winner == map[] && p.vehicleID == q.vehicleID
    requires w0.services[0].flight == Some(Flight(map[p.vehicleID := q], [p, q], Upserting({})))
    requires w0.services[0].batcher.historyBuffer == []
    ensures Alone(moves, w, [p, q]) && p in w.adrift && Held(w.store.winner, p.vehicleID) == Some(q)
    ensures w.services[0].flight == Some(Flight(map[p.vehicleID := q], [p, q], Inserting(multiset([p, q]))))
    ensures w.services[0].batcher.historyBuffer == []
  {
    hide Run, RunUpsert, UpsertOf;
    moves := Then(before, w0, ApplyUpsert(p.vehicleID));
    w := Next(w0, 0, ApplyUpsert(p.vehicleID));
    moves := Then(moves, w, BulkDone);
    w := Next(w, 0, BulkDone);
  }

  lemma Drains(before: seq<Move>, w0: World, p: Packet, q: Packet) returns (moves: seq<Move>, w: World)
    requires Alone(before, w0, [p, q]) && p in w0.adrift && Held(w0.store.winner, p.vehicleID) == Some(q)
    requires w0.services[0].flight == Some(Flight(map[p.vehicleID := q], [p, q], Inserting(multiset([p, q]))))
    requires w0.services[0].batcher.historyBuffer == []
    ensures Alone(moves, w, [p, q]) && p in w.adrift && Held(w.store.winner, p.vehicleID) == Some(q)
    ensures Unstored(w.services[0]) == []
  {
    hide Run;
    assert multiset([p, q]) - multiset{p} == multiset{q};
    moves, w := InsertsOne(before, w0, p, q, multiset([p, q]), p);
    moves, w := InsertsOne(moves, w, p, q, multiset{q}, q);
    moves := Then(moves, w, InsertDone);
    w := Next(w, 0, InsertDone);
  }

  lemma InsertsOne(before: seq<Move>, w0: World, p: Packet, q: Packet, todo: multiset<Packet>, next: Packet)
    returns (moves: seq<Move>, w: World)
    requires Alone(before, w0, [p, q]) && p in w0.adrift && Held(w0.store.winner, p.vehicleID) == Some(q)
    requires next in todo
    requires w0.services[0].flight == Some(Flight(map[p.vehicleID := q], [p, q], Inserting(todo)))
    requires w0.services[0].batcher.historyBuffer == []
    ensures Alone(moves, w, [p, q]) && p in w.adrift && Held(w.store.winner, p.vehicleID) == Some(q)
    ensures w.services[0].flight == Some(Flight(map[p.vehicleID := q], [p, q], Inserting(todo - multiset{next})))
    ensures w.services[0].batcher.historyBuffer == []
  {
    hide Run;
    moves := Then(before, w0, InsertOne(next));
    w := Next(w0, 0, InsertOne(next));
  }

  lemma MayRestart(before: seq<Move>, w0: World, p: Packet, q: Packet, restart: bool)
    returns (moves: seq<Move>, w: World)
    requires Alone(before, w0, [p, q]) && p in w0.adrift && Held(w0.store.winner, p.vehicleID) == Some(q)
    requires Unstored(w0.services[0]) == []
    ensures Alone(moves, w, [p, q]) && p in w.adrift && Held(w.store.winner, p.vehicleID) == Some(q)
    ensures Unstored(w.services[0]) == [] && (restart ==> w.services[0] == Started())
  {
    moves, w := before, w0;
    if restart {
      hide Run;
      moves := Then(before, w0, Crash);
      CrashIdle(w0);
      w := Next(w0, 0, Crash);
      hide Next;
    }
  }

  lemma CrashIdle(w: World)
    requires |w.services| == 1 && Unstored(w.services[0]) == [] && w.lost == {}
    ensures var w' := Next(w, 0, Crash);
            && w'.services == [Started()] && w'.store == w.store && w'.arrived == w.arrived && w'.lost == {}
            && w.adrift <= w'.adrift
  {
  }

  lemma Lands(before: seq<Move>, w0: World, p: Packet, q: Packet) returns (moves: seq<Move>, w: World)
    requires Alone(before, w0, [p, q]) && p in w0.adrift && Held(w0.store.winner, p.vehicleID) == Some(q)
    requires p.vehicleID == q.vehicleID && p.timestamp == q.timestamp >= MIN_SAFE && Unstored(w0.services[0]) == []
    ensures Alone(moves, w, [p, q]) && w.services == w0.services
    ensures Held(w.store.winner, p.vehicleID) == Some(p)
    ensures Expected(w, p.vehicleID) == Some(q)
  {
    hide Run;
    moves := Then(before, w0, LateUpsert(p));
    w := Next(w0, 0, LateUpsert(p));
    LandsAfter(w0, p, q);
    hide Next;
    NothingLost(w, p.vehicleID);
    assert [p, q][..1] == [p] && [p][..0] == [];
    assert Newest([p], p.vehicleID) == Some(p);
  }

  lemma LandsAfter(w: World, p: Packet, q: Packet)
    requires |w.services| == 1 && Enabled(w, 0, LateUpsert(p)) && Held(w.store.winner, p.vehicleID) == Some(q)
    requires p.timestamp == q.timestamp
    ensures var w' := Next(w, 0, LateUpsert(p));
            && w'.services == w.services && w'.arrived == w.arrived && w'.lost == w.lost
            && Held(w'.store.winner, p.vehicleID) == Some(p)
  {
    hide RunUpsert, UpsertOf;
  }
}
