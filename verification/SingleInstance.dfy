// Last write wins for a single instance, at every point of every run with failures, crashes
// and writes that land late: what is stored is the last arrival of maximal timestamp among the
// packets written, and with what is in memory it gives that of all packets not lost.
module SingleInstance {
  import opened Basics
  import opened Packets
  import opened LastWriteWins
  import opened Ingestion
  import opened DeleteAfterFlush
  import opened Documents

  // ---- what should be stored ----

  // The last to arrive of maximal timestamp of the packets that count, and of those written.
  function Expected(w: World, id: string): Option<Packet> {
    Newest(Only(w.arrived, Counted(w)), id)
  }

  function NewestWritten(w: World, id: string): Option<Packet> {
    Newest(Only(w.arrived, w.store.written), id)
  }

  // When nothing was lost every arrival counts.
  lemma NothingLost(w: World, id: string)
    requires w.lost == {}
    ensures Expected(w, id) == Newest(w.arrived, id)
  {
    OnlyAll(w.arrived, Counted(w));
  }

  // Two packets count as the same if they have the same key: the packet itself, or only the
  // document it is stored as. A key tells timestamps apart.
  ghost predicate IsKey<T>(key: Packet -> T) {
    forall p, q :: key(p) == key(q) ==> p.timestamp == q.timestamp
  }

  ghost predicate Alike<T>(key: Packet -> T, a: Option<Packet>, b: Option<Packet>) {
    a.Some? == b.Some? && (a.Some? ==> key(a.value) == key(b.value))
  }

  lemma PacketIsKey()
    ensures IsKey((p: Packet) => p)
  {
  }

  lemma DocumentIsKey()
    ensures IsKey(DocOf)
  {
    forall p, q | DocOf(p) == DocOf(q) ensures p.timestamp == q.timestamp {
      assert DocOf(p)[Timestamp] == Num(p.timestamp) && DocOf(q)[Timestamp] == Num(q.timestamp);
    }
  }

  // The stored packet is the newest written.
  ghost predicate StoredRight<T>(key: Packet -> T, w: World, id: string) {
    Alike(key, Held(w.store.winner, id), NewestWritten(w, id))
  }

  // ---- what is in memory ----

  function FlightBatch(s: Service): map<string, Packet> {
    if s.flight.Some? then s.flight.value.batch else map[]
  }

  // The upsert of this vehicle's packet in flight has taken effect.
  predicate Settled(s: Service, id: string) {
    s.flight.Some? && (s.flight.value.phase.Upserting? ==> id in s.flight.value.phase.applied)
  }

  // The newest packet of a vehicle in flight or buffered, and of those yet to be upserted.
  function InHand(s: Service, id: string): Option<Packet> {
    Merge(Held(FlightBatch(s), id), Held(s.batcher.buffer, id))
  }

  function Unsaved(s: Service, id: string): Option<Packet> {
    if Settled(s, id) then Held(s.batcher.buffer, id) else InHand(s, id)
  }

  // What is stored and what is yet to be upserted together give what should be stored.
  ghost predicate MergedRight<T>(key: Packet -> T, w: World, id: string)
    requires |w.services| == 1
  {
    Alike(key, Merge(Held(w.store.winner, id), Unsaved(w.services[0], id)), Expected(w, id))
  }

  // ---- the structure of every single-instance run ----

  // What arrived before what is in memory.
  function Prior(w: World): seq<Packet>
    requires |w.services| == 1 && |Unstored(w.services[0])| <= |w.arrived|
  {
    w.arrived[..|w.arrived| - |Unstored(w.services[0])|]
  }

  // What is in memory are the last arrivals, in order.
  ghost predicate InOrder(w: World)
    requires |w.services| == 1
  {
    |Unstored(w.services[0])| <= |w.arrived| && w.arrived == Prior(w) + Unstored(w.services[0])
  }

  // Deliveries are told apart, and nothing in memory counts as lost.
  ghost predicate ToldApart(w: World)
    requires |w.services| == 1
  {
    && DistinctDeliveries(w.arrived)
    && (forall p :: p in w.arrived ==> p.delivery in w.owner)
    && (forall r :: r in w.lost ==> r in w.owner)
    && (forall p :: p in Unstored(w.services[0]) ==> p.delivery !in w.lost)
  }

  // While a flush is in flight no upsert has been sent for what is buffered; and what is
  // settled is written.
  ghost predicate Sent(w: World)
    requires |w.services| == 1
  {
    var s := w.services[0];
    && (s.flight.Some? ==> forall p :: p in s.batcher.historyBuffer ==> p !in w.store.written && p !in w.adrift)
    && (forall id :: Settled(s, id) && id in s.flight.value.batch ==> s.flight.value.batch[id] in w.store.written)
  }

  // Of what arrived before, the newest that counts is the newest written.
  ghost predicate PriorWritten(w: World, id: string)
    requires |w.services| == 1 && |Unstored(w.services[0])| <= |w.arrived|
  {
    Newest(Only(Prior(w), Counted(w)), id) == Newest(Only(Prior(w), w.store.written), id)
  }

  ghost predicate Single(w: World) {
    && |w.services| == 1 && WorldInv(w) && FromArrivals(w)
    && InOrder(w) && ToldApart(w) && Sent(w)
    && forall id :: PriorWritten(w, id)
  }

  lemma ApartPackets(w: World)
    requires |w.services| == 1 && ToldApart(w)
    ensures DistinctPackets(w.arrived)
  {
  }

  // A packet in memory did not arrive before.
  lemma NotPrior(w: World, p: Packet)
    requires |w.services| == 1 && InOrder(w) && ToldApart(w) && p in Unstored(w.services[0])
    ensures forall q :: q in Prior(w) ==> q.delivery != p.delivery
  {
    DistinctParts(Prior(w), Unstored(w.services[0]), p);
  }

  lemma DistinctParts(front: seq<Packet>, end: seq<Packet>, p: Packet)
    requires DistinctDeliveries(front + end) && p in end
    ensures forall q :: q in front ==> q.delivery != p.delivery
  {
    var j :| 0 <= j < |end| && end[j] == p;
    assert (front + end)[|front| + j] == p;
    forall i | 0 <= i < |front| ensures front[i].delivery != p.delivery {
      assert (front + end)[i] == front[i];
    }
  }

  lemma BufferApartFromFlight(w: World, p: Packet)
    requires |w.services| == 1 && InOrder(w) && ToldApart(w) && p in InFlight(w.services[0])
    ensures p !in w.services[0].batcher.historyBuffer
  {
    var f, b := InFlight(w.services[0]), w.services[0].batcher.historyBuffer;
    var n := |Prior(w)|;
    var i :| 0 <= i < |f| && f[i] == p;
    assert w.arrived[n + i] == p;
    forall j | 0 <= j < |b| ensures b[j] != p {
      assert w.arrived[n + |f| + j] == b[j];
    }
  }

  // ---- every step keeps the structure ----

  lemma StepInOrder(w: World, a: Action)
    requires |w.services| == 1 && WorldInv(w) && InOrder(w) && Enabled(w, 0, a)
    ensures |Next(w, 0, a).services| == 1 && InOrder(Next(w, 0, a))
  {
    StepArrived(w, a);
    StepUnstored(w.services[0], w.store, a);
    var u, u' := Unstored(w.services[0]), Unstored(Next(w, 0, a).services[0]);
    hide Next, Unstored, StepService, WorldInv, Enabled, CanStep;
    if a.Receive? {
      EndsLonger(w.arrived, u, a.p);
    } else if a.InsertDone? {
      EndsShorter(w.arrived, InFlight(w.services[0]), u');
    }
  }

  lemma StepArrived(w: World, a: Action)
    requires |w.services| == 1 && WorldInv(w) && Enabled(w, 0, a)
    ensures |Next(w, 0, a).services| == 1 && Next(w, 0, a).services[0] == StepService(w.services[0], w.store, a)
    ensures Next(w, 0, a).arrived == if a.Receive? then w.arrived + [a.p] else w.arrived
    ensures ServiceInv(w.services[0], w.store) && CanStep(w.services[0], a)
  {
  }

  lemma EndsLonger(all: seq<Packet>, end: seq<Packet>, p: Packet)
    requires |end| <= |all| && all == all[..|all| - |end|] + end
    ensures |end| + 1 <= |all| + 1 && all + [p] == (all + [p])[..|all| - |end|] + (end + [p])
  {
  }

  lemma EndsShorter(all: seq<Packet>, front: seq<Packet>, end: seq<Packet>)
    requires |front + end| <= |all| && all == all[..|all| - |front + end|] + (front + end)
    ensures |end| <= |all| && all == all[..|all| - |end|] + end
    ensures all[..|all| - |end|] == all[..|all| - |front + end|] + front
  {
  }

  lemma StepUnstored(s: Service, st: Store, a: Action)
    requires ServiceInv(s, st) && CanStep(s, a)
    ensures var s' := StepService(s, st, a);
            match a
            case Receive(p) => Unstored(s') == Unstored(s) + [p]
            case InsertDone => Unstored(s) == InFlight(s) + Unstored(s')
            case Crash => Unstored(s') == []
            case _ => Unstored(s') == Unstored(s)
  {
    var s' := StepService(s, st, a);
    match a
    case Receive(p) => assert Unstored(s') == Unstored(s) + [p];
    case FlushAndAck => assert Unstored(s') == Unstored(s);
    case FlushFails => assert Unstored(s') == Unstored(s);
    case InsertDone => assert Unstored(s) == InFlight(s) + Unstored(s');
    case _ =>
  }

  lemma StepApart(w: World, a: Action)
    requires |w.services| == 1 && WorldInv(w) && InOrder(w) && ToldApart(w) && Enabled(w, 0, a)
    ensures ToldApart(Next(w, 0, a))
  {
    var w' := Next(w, 0, a);
    StepUnstored(w.services[0], w.store, a);
    forall p | p in Unstored(w'.services[0]) ensures p.delivery !in w'.lost {
      assert p in Unstored(w.services[0]) || (a.Receive? && p == a.p);
    }
    if a.Crash? {
      forall r | r in w'.lost ensures r in w'.owner {
        if r !in w.lost {
          LostWasOwned(w, r);
        }
      }
    }
  }

  lemma LostWasOwned(w: World, r: nat)
    requires |w.services| == 1 && InOrder(w) && ToldApart(w) && r in Deliveries(Unstored(w.services[0]))
    ensures r in w.owner
  {
    var u := Unstored(w.services[0]);
    var k :| 0 <= k < |u| && u[k].delivery == r;
    assert w.arrived[|Prior(w)| + k] == u[k];
  }

  lemma StepSent(w: World, a: Action)
    requires Single(w) && Enabled(w, 0, a)
    ensures Sent(Next(w, 0, a))
  {
    var w' := Next(w, 0, a);
    StepBuffer(w.services[0], w.store, a);
    forall p | w'.services[0].flight.Some? && p in w'.services[0].batcher.historyBuffer
      ensures p !in w'.store.written && p !in w'.adrift
    {
      StepUnsent(w, a, p);
    }
    StepSettled(w, a);
    hide Single, Next, Settled;
  }

  lemma StepSettled(w: World, a: Action)
    requires Single(w) && Enabled(w, 0, a)
    ensures var s' := Next(w, 0, a).services[0];
            forall id :: Settled(s', id) && id in s'.flight.value.batch ==>
              s'.flight.value.batch[id] in Next(w, 0, a).store.written
  {
    NewlySettled(w.services[0], w.store, a);
    WrittenGrows(w.services[0], w.store, a);
    assert Sent(w);
    hide Single, Settled, StepService, StepStore;
  }

  lemma WrittenGrows(s: Service, st: Store, a: Action)
    requires CanStep(s, a)
    ensures st.written <= StepStore(s, st, a).written
  {
  }

  lemma NewlySettled(s: Service, st: Store, a: Action)
    requires ServiceInv(s, st) && CanStep(s, a)
    ensures var s' := StepService(s, st, a);
            forall id :: Settled(s', id) && id in s'.flight.value.batch ==>
              s'.flight.value.batch[id] in StepStore(s, st, a).written
              || (Settled(s, id) && id in s.flight.value.batch && s'.flight.value.batch == s.flight.value.batch)
  {
  }

  lemma StepUnsent(w: World, a: Action, p: Packet)
    requires Single(w) && Enabled(w, 0, a) && Next(w, 0, a).services[0].flight.Some?
    requires (p in w.services[0].batcher.historyBuffer && w.services[0].flight.Some?) || (a.Receive? && p == a.p)
    ensures p !in Next(w, 0, a).store.written && p !in Next(w, 0, a).adrift
  {
    if a.Receive? && p == a.p {
      assert p !in w.arrived;
    } else if a.ApplyUpsert? {
      FlightPacket(w.services[0], w.store, a.id);
      BufferApartFromFlight(w, w.services[0].flight.value.batch[a.id]);
    }
  }

  // ---- the newest of what counts, and of what is written ----

  // Newest of a subset of all arrivals, in two parts.
  lemma InParts(w: World, keep: set<Packet>, id: string)
    requires |w.services| == 1 && InOrder(w)
    ensures Newest(Only(w.arrived, keep), id) ==
            Merge(Newest(Only(Prior(w), keep), id), Newest(Only(Unstored(w.services[0]), keep), id))
  {
    OnlyConcat(Prior(w), Unstored(w.services[0]), keep);
    NewestConcat(Only(Prior(w), keep), Only(Unstored(w.services[0]), keep), id);
  }

  lemma MemoryIsLogged(s: Service, st: Store, id: string)
    requires ServiceInv(s, st)
    ensures InHand(s, id) == Newest(Unstored(s), id)
  {
    NewestConcat(InFlight(s), s.batcher.historyBuffer, id);
    assert Held(s.batcher.buffer, id) == Newest(s.batcher.historyBuffer, id);
    assert Held(FlightBatch(s), id) == Newest(InFlight(s), id);
  }

  // What should be stored is the newest written before, merged with what is in memory; what is
  // written is that, merged with what of the memory is written.
  lemma ExpectedInParts(w: World, id: string)
    requires Single(w)
    ensures var before := Newest(Only(Prior(w), w.store.written), id);
            && Expected(w, id) == Merge(before, InHand(w.services[0], id))
            && NewestWritten(w, id) == Merge(before, Newest(Only(Unstored(w.services[0]), w.store.written), id))
  {
    InParts(w, Counted(w), id);
    InParts(w, w.store.written, id);
    MemoryIsLogged(w.services[0], w.store, id);
    assert PriorWritten(w, id);
    OnlyAll(Unstored(w.services[0]), Counted(w)) by {
      forall p | p in Unstored(w.services[0]) ensures p in Counted(w) {
        assert p in w.arrived;
      }
    }
  }

  // How what is in memory, written, and yet to be upserted relate.
  ghost predicate MemoryParts(written: Option<Packet>, hand: Option<Packet>, unsaved: Option<Packet>) {
    && (written.Some? ==> hand.Some? && written.value.timestamp <= hand.value.timestamp)
    && (unsaved.Some? ==> hand.Some? && unsaved.value.timestamp <= hand.value.timestamp
                          && (unsaved.value.timestamp == hand.value.timestamp ==> unsaved == hand))
    && (hand.Some? ==> written == hand || unsaved == hand)
  }

  lemma MemoryInParts(w: World, id: string)
    requires Single(w)
    ensures MemoryParts(Newest(Only(Unstored(w.services[0]), w.store.written), id), InHand(w.services[0], id),
                        Unsaved(w.services[0], id))
  {
    var s := w.services[0];
    MemoryIsLogged(s, w.store, id);
    NewestKept(Unstored(s), w.store.written, id);
    if Settled(s, id) && id in s.flight.value.batch {
      assert s.flight.value.batch[id] in w.store.written;
    }
  }

  // ---- every step keeps what is said of earlier arrivals ----

  // A step that leaves the earlier arrivals as they are, and whether they count or are written.
  lemma PriorUntouched(w: World, w': World, id: string)
    requires |w.services| == 1 && InOrder(w) && |w'.services| == 1 && InOrder(w') && Prior(w') == Prior(w)
    requires PriorWritten(w, id)
    requires forall p :: p in Prior(w) ==> (p in Counted(w') <==> p in Counted(w))
    requires forall p :: p in Prior(w) ==> (p in w'.store.written <==> p in w.store.written)
    ensures PriorWritten(w', id)
  {
    OnlyAgrees(Prior(w), Counted(w), Counted(w'));
    OnlyAgrees(Prior(w), w.store.written, w'.store.written);
  }

  lemma LandingFacts(w: World, p: Packet)
    requires |w.services| == 1 && FromArrivals(w) && Enabled(w, 0, LateUpsert(p))
    ensures |Next(w, 0, LateUpsert(p)).services| == 1 && p in w.arrived
    ensures var w' := Next(w, 0, LateUpsert(p));
            && w'.services == w.services && w'.arrived == w.arrived && w'.store == Upserted(w.store, p)
            && w'.store.written == w.store.written + {p} && Counted(w') == Counted(w) + {p}
  {
    UpsertedDocs(w.store, p);
    hide RunUpsert, UpsertOf;
  }

  lemma PriorLands(w: World, p: Packet, id: string)
    requires Single(w) && Enabled(w, 0, LateUpsert(p)) && InOrder(Next(w, 0, LateUpsert(p)))
    ensures PriorWritten(Next(w, 0, LateUpsert(p)), id)
  {
    assert PriorWritten(w, id) && FromArrivals(w) && InOrder(w) && ToldApart(w);
    LandingFacts(w, p);
    hide Next, Counted, Only, Newest, Single, Upserted, FromArrivals;
    ApartPackets(w);
    assert forall i :: 0 <= i < |Prior(w)| ==> Prior(w)[i] == w.arrived[i];
    JoinsAlike(Prior(w), Counted(w), w.store.written, p, id);
  }

  // A packet that joins two subsets of the same newest leaves them with the same newest.
  lemma JoinsAlike(log: seq<Packet>, keep: set<Packet>, keep': set<Packet>, p: Packet, id: string)
    requires DistinctPackets(log) && Newest(Only(log, keep), id) == Newest(Only(log, keep'), id)
    ensures Newest(Only(log, keep + {p}), id) == Newest(Only(log, keep' + {p}), id)
  {
    if p.vehicleID != id {
      OnlyOther(log, keep, p, id);
      OnlyOther(log, keep', p, id);
    } else if p in log {
      NewestJoined(log, keep, p);
      NewestJoined(log, keep', p);
    } else {
      OnlyAgrees(log, keep, keep + {p});
      OnlyAgrees(log, keep', keep' + {p});
    }
  }

  // A completed flush joins the earlier arrivals, and the newest of it is written.
  lemma PriorGrows(w: World, id: string)
    requires Single(w) && Enabled(w, 0, InsertDone) && InOrder(Next(w, 0, InsertDone))
    ensures PriorWritten(Next(w, 0, InsertDone), id)
  {
    var w' := Next(w, 0, InsertDone);
    var s := w.services[0];
    var h := InFlight(s);
    StepUnstored(s, w.store, InsertDone);
    EndsShorter(w.arrived, h, Unstored(w'.services[0]));
    assert PriorWritten(w, id) && Prior(w') == Prior(w) + h && Counted(w') == Counted(w);
    OnlyConcat(Prior(w), h, Counted(w));
    OnlyConcat(Prior(w), h, w.store.written);
    NewestConcat(Only(Prior(w), Counted(w)), Only(h, Counted(w)), id);
    NewestConcat(Only(Prior(w), w.store.written), Only(h, w.store.written), id);
    FlightIsWritten(w, id);
  }

  lemma FlightIsWritten(w: World, id: string)
    requires Single(w) && w.services[0].flight.Some? && w.services[0].flight.value.phase.Inserting?
    ensures var h := InFlight(w.services[0]); Newest(Only(h, Counted(w)), id) == Newest(Only(h, w.store.written), id)
  {
    var h := InFlight(w.services[0]);
    forall p | p in h ensures p in Counted(w) {
      assert p in Unstored(w.services[0]) && p in w.arrived;
    }
    OnlyAll(h, Counted(w));
    NewestKept(h, w.store.written, id);
    assert Held(w.services[0].flight.value.batch, id) == Newest(h, id);
    assert Settled(w.services[0], id);
  }

  lemma CrashFacts(w: World)
    requires |w.services| == 1
    ensures Enabled(w, 0, Crash) && |Next(w, 0, Crash).services| == 1
    ensures var w' := Next(w, 0, Crash);
            && w'.store == w.store && w'.arrived == w.arrived && Unstored(w'.services[0]) == []
            && forall r :: r in w'.lost <==> r in w.lost || r in Deliveries(Unstored(w.services[0]))
  {
  }

  // A crash loses what is in memory, but for what is written.
  lemma PriorCrash(w: World, id: string)
    requires Single(w) && |Next(w, 0, Crash).services| == 1 && InOrder(Next(w, 0, Crash))
    ensures PriorWritten(Next(w, 0, Crash), id)
  {
    CrashFacts(w);
    var w' := Next(w, 0, Crash);
    assert InOrder(w) && ToldApart(w) && PriorWritten(w, id) && Prior(w') == w.arrived;
    hide Single, Next, Unstored, Deliveries;
    InParts(w, Counted(w'), id);
    InParts(w, w.store.written, id);
    PriorStillCounts(w, w');
    MemoryCountsIfWritten(w, w');
    OnlyAgrees(Prior(w), Counted(w), Counted(w'));
    OnlyAgrees(Unstored(w.services[0]), Counted(w'), w.store.written);
  }

  // w' is w after a crash.
  ghost predicate Crashed(w: World, w': World)
    requires |w.services| == 1
  {
    && w'.store == w.store && w'.arrived == w.arrived
    && forall r :: r in w'.lost <==> r in w.lost || r in Deliveries(Unstored(w.services[0]))
  }

  lemma PriorStillCounts(w: World, w': World)
    requires |w.services| == 1 && InOrder(w) && ToldApart(w) && Crashed(w, w')
    ensures forall p :: p in Prior(w) ==> (p in Counted(w') <==> p in Counted(w))
  {
    var u := Unstored(w.services[0]);
    forall p | p in Prior(w) ensures p in w.arrived && p.delivery !in Deliveries(u) {
      forall k | 0 <= k < |u| ensures u[k].delivery != p.delivery {
        NotPrior(w, u[k]);
      }
    }
  }

  lemma MemoryCountsIfWritten(w: World, w': World)
    requires |w.services| == 1 && InOrder(w) && Crashed(w, w')
    ensures forall p :: p in Unstored(w.services[0]) ==> (p in Counted(w') <==> p in w.store.written)
  {
    var u := Unstored(w.services[0]);
    forall p | p in u ensures p in w.arrived && p.delivery in Deliveries(u) {
      var k :| 0 <= k < |u| && u[k] == p;
      assert Deliveries(u)[k] == p.delivery;
    }
  }

  lemma StepPriorWritten(w: World, a: Action, id: string)
    requires Single(w) && Enabled(w, 0, a) && |Next(w, 0, a).services| == 1 && InOrder(Next(w, 0, a))
    ensures PriorWritten(Next(w, 0, a), id)
  {
    if a.LateUpsert? {
      PriorLands(w, a.late, id);
    } else if a.InsertDone? {
      PriorGrows(w, id);
    } else if a.Crash? {
      PriorCrash(w, id);
    } else {
      StepPrior(w, a);
      assert PriorWritten(w, id);
      hide Single, Next, PriorWritten;
      PriorUntouched(w, Next(w, 0, a), id);
    }
  }

  lemma StepPrior(w: World, a: Action)
    requires Single(w) && Enabled(w, 0, a) && !a.LateUpsert? && !a.InsertDone? && !a.Crash?
    requires |Next(w, 0, a).services| == 1 && InOrder(Next(w, 0, a))
    ensures Prior(Next(w, 0, a)) == Prior(w)
    ensures forall p :: p in Prior(w) ==> (p in Counted(Next(w, 0, a)) <==> p in Counted(w))
    ensures forall p :: p in Prior(w) ==> (p in Next(w, 0, a).store.written <==> p in w.store.written)
  {
    var w' := Next(w, 0, a);
    StepUnstored(w.services[0], w.store, a);
    if a.ApplyUpsert? {
      FlightPacket(w.services[0], w.store, a.id);
      NotPrior(w, w.services[0].flight.value.batch[a.id]);
    }
    forall p | p in Prior(w) ensures p in w.arrived {}
  }

  lemma SingleStep(w: World, a: Action)
    requires Single(w) && Enabled(w, 0, a)
    ensures Single(Next(w, 0, a))
  {
    hide Next, WorldInv, FromArrivals, ToldApart, Sent, PriorWritten, Enabled;
    WorldKeeps(w, 0, a);
    StepFromArrivals(w, 0, a);
    StepInOrder(w, a);
    StepApart(w, a);
    StepSent(w, a);
    forall id ensures PriorWritten(Next(w, 0, a), id) {
      StepPriorWritten(w, a, id);
    }
  }

  lemma OnlyOne(w: World, m: Move)
    requires Single(w) && Enabled(w, m.at, m.action)
    ensures m.at == 0
  {
  }

  lemma {:induction false} SingleRun(w: World, moves: seq<Move>, w': World)
    requires Single(w) && Run(w, moves, w')
    ensures Single(w')
    decreases |moves|
  {
    hide Single, Next, Enabled;
    if moves != [] {
      OnlyOne(w, moves[0]);
      SingleStep(w, moves[0].action);
      SingleRun(Next(w, moves[0].at, moves[0].action), moves[1..], w');
    }
  }

  lemma SingleReached(moves: seq<Move>, w: World)
    requires Run(Initial(1), moves, w)
    ensures Single(w)
  {
    InitialSingle();
    SingleRun(Initial(1), moves, w);
  }

  lemma InitialSingle()
    ensures Single(Initial(1))
  {
    InitialInv(1);
    assert Initial(1).services[0] == Started();
    hide WorldInv;
  }
}
