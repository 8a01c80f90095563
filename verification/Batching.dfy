// TelemetryBatcher: what each synchronous stretch of code between two awaits does to it.
module Batching {
  import opened Basics
  import opened Packets
  import opened LastWriteWins

  datatype Stats = Stats(received: nat, dropped: nat, flushes: nat, upserts: nat, history: nat)

  datatype Batcher = Batcher(keepsHistory: bool, buffer: map<string, Packet>, historyBuffer: seq<Packet>,
                             flushing: bool, stats: Stats)

  function NewBatcher(keepsHistory: bool): Batcher {
    Batcher(keepsHistory, map[], [], false, Stats(0, 0, 0, 0, 0))
  }

  predicate TooOld(buffer: map<string, Packet>, p: Packet) {
    p.vehicleID in buffer && buffer[p.vehicleID].timestamp > p.timestamp
  }

  function AddTo(buffer: map<string, Packet>, p: Packet): map<string, Packet> {
    if TooOld(buffer, p) then buffer else buffer[p.vehicleID := p]
  }

  function Added(b: Batcher, p: Packet): Batcher {
    b.(buffer := AddTo(b.buffer, p),
       historyBuffer := if b.keepsHistory then b.historyBuffer + [p] else b.historyBuffer,
       stats := b.stats.(received := b.stats.received + 1,
                         dropped := b.stats.dropped + if TooOld(b.buffer, p) then 1 else 0))
  }

  // flush returns at once, having done nothing.
  predicate NothingToFlush(b: Batcher) {
    b.flushing || NothingBuffered(b)
  }

  function Swapped(b: Batcher): Batcher {
    b.(buffer := map[], historyBuffer := [], flushing := true)
  }

  function AfterUpserts(b: Batcher, n: nat): Batcher {
    b.(stats := b.stats.(upserts := b.stats.upserts + n))
  }

  function AfterFlush(b: Batcher, n: nat): Batcher {
    b.(flushing := false,
       stats := b.stats.(flushes := b.stats.flushes + 1, history := b.stats.history + n))
  }

  // The catch block: an unwritten packet goes back unless one at least as new came meanwhile.
  function PutBack(batch: map<string, Packet>, buffer: map<string, Packet>): map<string, Packet> {
    map id | id in batch.Keys + buffer.Keys ::
      if id in batch && (id !in buffer || buffer[id].timestamp < batch[id].timestamp) then batch[id] else buffer[id]
  }

  function AfterFailure(b: Batcher, batch: map<string, Packet>, history: seq<Packet>): Batcher {
    b.(buffer := PutBack(batch, b.buffer), historyBuffer := history + b.historyBuffer, flushing := false)
  }

  // ---- stop ----

  // How a flush ends, and where it fails.
  datatype Outcome = Flushed | UpsertsFailed | InsertFailed

  function AddedAll(b: Batcher, ps: seq<Packet>): Batcher {
    if ps == [] then b else Added(AddedAll(b, ps[..|ps| - 1]), ps[|ps| - 1])
  }

  // stop: one last flush, during which the given packets arrive. It ends at once if there is
  // nothing to flush or another flush is in flight.
  function Stopped(b: Batcher, arrivals: seq<Packet>, outcome: Outcome): Batcher {
    if NothingToFlush(b) then b
    else
      var during := AddedAll(Swapped(b), arrivals);
      match outcome
      case Flushed => AfterFlush(AfterUpserts(during, |b.buffer|), |b.historyBuffer|)
      case UpsertsFailed => AfterFailure(during, b.buffer, b.historyBuffer)
      case InsertFailed => AfterFailure(AfterUpserts(during, |b.buffer|), b.buffer, b.historyBuffer)
  }

  predicate NothingBuffered(b: Batcher) {
    b.buffer == map[] && b.historyBuffer == []
  }

  lemma {:induction false} AddedAllHolds(b: Batcher, ps: seq<Packet>)
    ensures AddedAll(b, ps).keepsHistory == b.keepsHistory && AddedAll(b, ps).flushing == b.flushing
    ensures NothingBuffered(AddedAll(b, ps)) <==> NothingBuffered(b) && ps == []
  {
    if ps != [] {
      AddedAllHolds(b, ps[..|ps| - 1]);
      assert ps[|ps| - 1].vehicleID in AddedAll(b, ps).buffer;
    }
  }

  // The promised final flush: stop leaves nothing buffered if and only if nothing was, or no
  // flush is in flight, this one succeeds and nothing arrives during it. Nothing is left
  // unwritten, in a flush that is still in flight either, only in the absence of another one.
  lemma StopEmptiesExactly(b: Batcher, arrivals: seq<Packet>, outcome: Outcome)
    ensures NothingBuffered(Stopped(b, arrivals, outcome)) <==>
            NothingBuffered(b) || (!b.flushing && outcome.Flushed? && arrivals == [])
    ensures NothingBuffered(Stopped(b, arrivals, outcome)) && !Stopped(b, arrivals, outcome).flushing <==>
            !b.flushing && (NothingBuffered(b) || (outcome.Flushed? && arrivals == []))
  {
    AddedAllHolds(Swapped(b), arrivals);
    if id :| id in b.buffer {
      assert id in PutBack(b.buffer, AddedAll(Swapped(b), arrivals).buffer);
    }
  }

  // What stop makes of the history: what is not written is kept, the old packets in front of
  // those that arrived meanwhile, and the buffer is its index.
  lemma StopKeepsUnwritten(b: Batcher, arrivals: seq<Packet>, outcome: Outcome)
    requires b.keepsHistory && IsIndex(b.buffer, b.historyBuffer) && !b.flushing && !NothingBuffered(b)
    ensures var after := Stopped(b, arrivals, outcome);
            && after.historyBuffer == (if outcome.Flushed? then arrivals else b.historyBuffer + arrivals)
            && IsIndex(after.buffer, after.historyBuffer) && !after.flushing
            && after.stats.received == b.stats.received + |arrivals|
            && after.stats.history == b.stats.history + (if outcome.Flushed? then |b.historyBuffer| else 0)
            && after.stats.flushes == b.stats.flushes + (if outcome.Flushed? then 1 else 0)
            && after.stats.upserts == b.stats.upserts + (if outcome.UpsertsFailed? then 0 else |b.buffer|)
  {
    assert IsIndex(map[], []);
    AddedAllIndexed(Swapped(b), arrivals);
    assert [] + arrivals == arrivals;
    var during := AddedAll(Swapped(b), arrivals);
    PutBackKeepsIndex(b.buffer, b.historyBuffer, during.buffer, during.historyBuffer);
  }

  lemma {:induction false} AddedAllIndexed(b: Batcher, ps: seq<Packet>)
    requires b.keepsHistory && IsIndex(b.buffer, b.historyBuffer)
    ensures var after := AddedAll(b, ps);
            && after.keepsHistory && after.flushing == b.flushing
            && after.historyBuffer == b.historyBuffer + ps && IsIndex(after.buffer, after.historyBuffer)
            && after.stats.received == b.stats.received + |ps| && after.stats.history == b.stats.history
            && after.stats.flushes == b.stats.flushes && after.stats.upserts == b.stats.upserts
  {
    if ps != [] {
      var n := |ps| - 1;
      AddedAllIndexed(b, ps[..n]);
      var before := AddedAll(b, ps[..n]);
      AddKeepsIndex(before.buffer, before.historyBuffer, ps[n]);
      assert b.historyBuffer + ps == b.historyBuffer + ps[..n] + [ps[n]];
    }
  }

  // ---- the buffer is an exact index of the log ----

  lemma AddIsMerge(buffer: map<string, Packet>, p: Packet, id: string)
    ensures Held(AddTo(buffer, p), id) ==
            if id == p.vehicleID then Merge(Held(buffer, id), Some(p)) else Held(buffer, id)
  {
  }

  lemma PutBackIsMerge(batch: map<string, Packet>, buffer: map<string, Packet>, id: string)
    ensures Held(PutBack(batch, buffer), id) == Merge(Held(batch, id), Held(buffer, id))
  {
  }

  lemma AddKeepsIndex(buffer: map<string, Packet>, log: seq<Packet>, p: Packet)
    requires IsIndex(buffer, log)
    ensures IsIndex(AddTo(buffer, p), log + [p])
  {
    forall id ensures Held(AddTo(buffer, p), id) == Newest(log + [p], id) {
      AddIsMerge(buffer, p, id);
      assert (log + [p])[..|log|] == log;
      assert Held(buffer, id) == Newest(log, id);
    }
  }

  // Packets added during a failed flush come after those it puts back.
  lemma PutBackKeepsIndex(batch: map<string, Packet>, history: seq<Packet>, buffer: map<string, Packet>,
                          log: seq<Packet>)
    requires IsIndex(batch, history) && IsIndex(buffer, log)
    ensures IsIndex(PutBack(batch, buffer), history + log)
  {
    forall id ensures Held(PutBack(batch, buffer), id) == Newest(history + log, id) {
      PutBackIsMerge(batch, buffer, id);
      NewestConcat(history, log, id);
      assert Held(batch, id) == Newest(history, id);
      assert Held(buffer, id) == Newest(log, id);
    }
  }

  lemma PutBackStep(put: map<string, Packet>, before: map<string, Packet>, id: string, p: Packet)
    requires id !in put
    ensures PutBack(put[id := p], before) ==
            if id !in PutBack(put, before) || PutBack(put, before)[id].timestamp < p.timestamp
            then PutBack(put, before)[id := p] else PutBack(put, before)
  {
  }

  // ---- the class ----

  ghost predicate Keyed(m: map<string, Packet>) {
    forall id :: id in m ==> m[id].vehicleID == id
  }

  class TelemetryBatcher {
    const keepsHistory: bool
    var buffer: map<string, Packet>
    var historyBuffer: seq<Packet>
    var flushing: bool
    var stats: Stats

    ghost function State(): Batcher
      reads this
    {
      Batcher(keepsHistory, buffer, historyBuffer, flushing, stats)
    }

    // Each held packet is filed under its own vehicle.
    ghost predicate Valid()
      reads this
    {
      Keyed(buffer)
    }

    constructor (keepsHistory: bool)
      ensures Valid() && State() == NewBatcher(keepsHistory)
      ensures buffer == map[] && historyBuffer == [] && !flushing && stats == Stats(0, 0, 0, 0, 0)
    {
      this.keepsHistory := keepsHistory;
      buffer := map[];
      historyBuffer := [];
      flushing := false;
      stats := Stats(0, 0, 0, 0, 0);
    }

    method Add(pkt: Packet)
      requires Valid()
      modifies this
      ensures Valid() && State() == Added(old(State()), pkt)
      ensures historyBuffer == if keepsHistory then old(historyBuffer) + [pkt] else old(historyBuffer)
      ensures var older := pkt.vehicleID in old(buffer) && old(buffer)[pkt.vehicleID].timestamp > pkt.timestamp;
              && buffer == (if older then old(buffer) else old(buffer)[pkt.vehicleID := pkt])
              && stats == old(stats).(received := old(stats).received + 1,
                                      dropped := old(stats).dropped + if older then 1 else 0)
    {
      stats := stats.(received := stats.received + 1);
      if keepsHistory {
        historyBuffer := historyBuffer + [pkt];
      }
      if pkt.vehicleID in buffer && buffer[pkt.vehicleID].timestamp > pkt.timestamp {
        stats := stats.(dropped := stats.dropped + 1);
        return;
      }
      buffer := buffer[pkt.vehicleID := pkt];
    }

    // flush up to its first await: take both buffers and generate the upserts, one for each
    // vehicle of the batch.
    method BeginFlush() returns (took: bool, batch: map<string, Packet>, history: seq<Packet>, ops: seq<Upsert>)
      requires Valid()
      modifies this
      ensures Valid() && took == !NothingToFlush(old(State()))
      ensures !took ==> State() == old(State())
      ensures took ==> State() == Swapped(old(State())) && batch == old(buffer) && history == old(historyBuffer)
      ensures took ==> Keyed(batch)
      ensures took ==> IsOpsFor(batch, ops)
      ensures took <==> !old(flushing) && !(old(buffer) == map[] && old(historyBuffer) == [])
      ensures took ==> flushing && buffer == map[] && historyBuffer == [] && stats == old(stats)
    {
      if flushing || (buffer == map[] && historyBuffer == []) {
        return false, map[], [], [];
      }
      flushing := true;
      batch := buffer;
      history := historyBuffer;
      buffer := map[];
      historyBuffer := [];
      took := true;
      ops := BuildOps(batch);
    }

    // After bulkWrite has returned.
    method UpsertsDone(n: nat)
      modifies this
      ensures State() == AfterUpserts(old(State()), n)
      ensures stats == old(stats).(upserts := old(stats).upserts + n)
      ensures buffer == old(buffer) && historyBuffer == old(historyBuffer) && flushing == old(flushing)
    {
      stats := stats.(upserts := stats.upserts + n);
    }

    // After insertMany has returned.
    method FinishFlush(n: nat)
      modifies this
      ensures State() == AfterFlush(old(State()), n)
      ensures stats == old(stats).(flushes := old(stats).flushes + 1, history := old(stats).history + n)
      ensures !flushing && buffer == old(buffer) && historyBuffer == old(historyBuffer)
    {
      stats := stats.(history := stats.history + n);
      stats := stats.(flushes := stats.flushes + 1);
      flushing := false;
    }

    // The catch and finally blocks.
    method FailFlush(batch: map<string, Packet>, history: seq<Packet>)
      requires Valid() && Keyed(batch)
      modifies this
      ensures Valid() && State() == AfterFailure(old(State()), batch, history)
      ensures !flushing && historyBuffer == history + old(historyBuffer) && stats == old(stats)
      ensures forall id :: id in buffer <==> id in batch || id in old(buffer)
      ensures forall id :: id in buffer ==>
                buffer[id] == if id in batch && (id !in old(buffer) || old(buffer)[id].timestamp < batch[id].timestamp)
                              then batch[id] else old(buffer)[id]
    {
      buffer := PutBackAll(batch, buffer);
      historyBuffer := history + historyBuffer;
      flushing := false;
    }

    // The awaited flush of stop, with what arrives during it.
    method Stop(arrivals: seq<Packet>, outcome: Outcome)
      requires Valid()
      modifies this
      ensures Valid() && State() == Stopped(old(State()), arrivals, outcome)
    {
      var took, batch, history, ops := BeginFlush();
      if !took {
        return;
      }
      ghost var swapped := State();
      for k := 0 to |arrivals|
        invariant Valid() && State() == AddedAll(swapped, arrivals[..k])
      {
        assert arrivals[..k + 1][..k] == arrivals[..k];
        Add(arrivals[k]);
      }
      assert arrivals[..|arrivals|] == arrivals;
      if !outcome.UpsertsFailed? {
        UpsertsDone(|batch|);
      }
      if outcome.Flushed? {
        FinishFlush(|history|);
      } else {
        FailFlush(batch, history);
      }
    }
  }

  // The loop of the catch block.
  method PutBackAll(batch: map<string, Packet>, before: map<string, Packet>) returns (buffer: map<string, Packet>)
    requires Keyed(batch) && Keyed(before)
    ensures Keyed(buffer) && buffer == PutBack(batch, before)
  {
    buffer := before;
    var todo := batch.Keys;
    ghost var put: map<string, Packet> := map[];
    assert PutBack(put, before) == before;
    hide PutBack;
    while todo != {}
      invariant todo <= batch.Keys
      invariant put.Keys == batch.Keys - todo && forall id :: id in put ==> put[id] == batch[id]
      invariant Keyed(buffer) && buffer == PutBack(put, before)
      decreases |todo|
    {
      var id :| id in todo;
      var pkt := batch[id];
      PutBackStep(put, before, id, pkt);
      if id !in buffer || buffer[id].timestamp < pkt.timestamp {
        buffer := buffer[id := pkt];
      }
      todo := todo - {id};
      put := put[id := pkt];
    }
    assert put == batch;
  }

  // One generated upsert for each vehicle of the batch, and no other.
  ghost predicate IsOpsFor(batch: map<string, Packet>, ops: seq<Upsert>) {
    && OnePerVehicle(ops)
    && (forall i :: 0 <= i < |ops| ==> ops[i].vehicleID in batch && ops[i] == UpsertOf(batch[ops[i].vehicleID]))
    && (forall id :: id in batch ==> UpsertOf(batch[id]) in ops)
  }

  // [...batch.values()].map(buildUpsert)
  method BuildOps(batch: map<string, Packet>) returns (ops: seq<Upsert>)
    requires Keyed(batch)
    ensures IsOpsFor(batch, ops)
  {
    ops := [];
    var todo := batch.Keys;
    while todo != {}
      invariant todo <= batch.Keys
      invariant forall i :: 0 <= i < |ops| ==>
          ops[i].vehicleID in batch.Keys - todo && ops[i] == UpsertOf(batch[ops[i].vehicleID])
      invariant forall i, j :: 0 <= i < j < |ops| ==> ops[i].vehicleID != ops[j].vehicleID
      invariant forall id :: id in batch.Keys - todo ==> UpsertOf(batch[id]) in ops
      decreases |todo|
    {
      var id :| id in todo;
      var op := BuildUpsert(batch[id]);
      ops := ops + [op];
      todo := todo - {id};
    }
  }
}
