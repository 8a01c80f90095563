// The queue side of the telemetry service's index.js: pollLoop and flushAndAck, as methods
// on the state they update. Each is proved to take the step of the protocol that the
// module Ingestion gives it.
module QueueConsumer {
  import opened Basics
  import opened Packets
  import opened Batching
  import opened Ingestion
  import opened DeleteAfterFlush

  // The Receive step for one packet after another.
  function AllTakenIn(s: Service, ps: seq<Packet>): Service {
    if ps == [] then s else TakenIn(AllTakenIn(s, ps[..|ps| - 1]), ps[|ps| - 1])
  }

  lemma TakenInNext(s: Service, ps: seq<Packet>, p: Packet)
    ensures AllTakenIn(s, ps + [p]) == TakenIn(AllTakenIn(s, ps), p)
  {
    assert (ps + [p])[..|ps|] == ps;
  }

  // The bodies that parsed and passed packetIsValid.
  function WellFormed(messages: seq<Option<Packet>>): seq<Packet> {
    if messages == [] then []
    else
      var n := |messages| - 1;
      WellFormed(messages[..n]) + if messages[n].Some? then [messages[n].value] else []
  }

  // Exactly the well-formed ones, in order: the k-th comes from message at[k].
  lemma {:induction false} WellFormedExactly(messages: seq<Option<Packet>>) returns (at: seq<nat>)
    ensures |at| == |WellFormed(messages)|
    ensures forall k :: 0 <= k < |at| ==> at[k] < |messages| && messages[at[k]] == Some(WellFormed(messages)[k])
    ensures forall j, k :: 0 <= j < k < |at| ==> at[j] < at[k]
    ensures forall i :: 0 <= i < |messages| && messages[i].Some? ==> i in at
  {
    if messages == [] {
      at := [];
    } else {
      var front, last := messages[..|messages| - 1], messages[|messages| - 1];
      at := WellFormedExactly(front);
      assert messages == front + [last];
      var kept := WellFormed(front);
      assert WellFormed(messages) == kept + if last.Some? then [last.value] else [];
      hide WellFormed;
      at := OneMore(front, kept, at, last);
    }
  }

  lemma OneMore(front: seq<Option<Packet>>, kept: seq<Packet>, before: seq<nat>, last: Option<Packet>)
    returns (at: seq<nat>)
    requires |before| == |kept|
    requires forall k :: 0 <= k < |before| ==> before[k] < |front| && front[before[k]] == Some(kept[k])
    requires forall j, k :: 0 <= j < k < |before| ==> before[j] < before[k]
    requires forall i :: 0 <= i < |front| && front[i].Some? ==> i in before
    ensures var all, ps := front + [last], kept + if last.Some? then [last.value] else [];
            && |at| == |ps|
            && (forall k :: 0 <= k < |at| ==> at[k] < |all| && all[at[k]] == Some(ps[k]))
            && (forall j, k :: 0 <= j < k < |at| ==> at[j] < at[k])
            && (forall i :: 0 <= i < |all| && all[i].Some? ==> i in at)
  {
    at := if last.Some? then before + [|front|] else before;
    NoneMissed(front, before, last, at);
  }

  lemma NoneMissed(front: seq<Option<Packet>>, before: seq<nat>, last: Option<Packet>, at: seq<nat>)
    requires forall i :: 0 <= i < |front| && front[i].Some? ==> i in before
    requires at == if last.Some? then before + [|front|] else before
    ensures forall i :: 0 <= i < |front + [last]| && (front + [last])[i].Some? ==> i in at
  {
    assert last.Some? ==> at[|before|] == |front|;
    forall i | 0 <= i < |front| && front[i].Some? ensures i in at {
      assert i in before;
    }
  }

  // Each is logged, buffered for the history and its receipt kept, in order.
  lemma {:induction false} TakenInMeans(s: Service, ps: seq<Packet>)
    requires s.batcher.keepsHistory
    ensures AllTakenIn(s, ps).batcher.keepsHistory
    ensures AllTakenIn(s, ps).log == s.log + ps
    ensures AllTakenIn(s, ps).pending == s.pending + Deliveries(ps)
    ensures AllTakenIn(s, ps).batcher.historyBuffer == s.batcher.historyBuffer + ps
    ensures AllTakenIn(s, ps).flight == s.flight && AllTakenIn(s, ps).awaiting == s.awaiting
    ensures AllTakenIn(s, ps).acking == s.acking && AllTakenIn(s, ps).committed == s.committed
  {
    if ps != [] {
      var n := |ps| - 1;
      TakenInMeans(s, ps[..n]);
      assert ps[..n] + [ps[n]] == ps;
      DeliveriesConcat(ps[..n], [ps[n]]);
      assert Deliveries([ps[n]]) == [ps[n].delivery];
      assert s.log + ps[..n] + [ps[n]] == s.log + ps;
      assert s.batcher.historyBuffer + ps[..n] + [ps[n]] == s.batcher.historyBuffer + ps;
    }
  }

  class SqsConsumer {
    const batcher: TelemetryBatcher
    var pendingReceipts: seq<nat>

    constructor ()
      ensures fresh(batcher) && Matches(Started())
    {
      batcher := new TelemetryBatcher(true);
      pendingReceipts := [];
    }

    // The fields hold what the protocol's instance says.
    ghost predicate Matches(s: Service)
      reads this, batcher
    {
      batcher.Valid() && batcher.keepsHistory && batcher.State() == s.batcher && pendingReceipts == s.pending
    }

    // The messages of one response; None is a message that is not JSON or not a packet. It
    // is skipped, and neither its body nor its receipt is kept.
    method Take(messages: seq<Option<Packet>>, ghost s: Service)
      requires Matches(s)
      modifies this, batcher
      ensures Matches(AllTakenIn(s, WellFormed(messages)))
      ensures batcher.historyBuffer == old(batcher.historyBuffer) + WellFormed(messages)
      ensures pendingReceipts == old(pendingReceipts) + Deliveries(WellFormed(messages))
    {
      assert AllTakenIn(s, []) == s;
      TakenInMeans(s, WellFormed(messages));
      hide AllTakenIn, TakenIn, WellFormed;
      for k := 0 to |messages|
        invariant Matches(AllTakenIn(s, WellFormed(messages[..k])))
      {
        assert messages[..k + 1][..k] == messages[..k];
        assert WellFormed(messages[..k]) + [] == WellFormed(messages[..k]);
        if messages[k].Some? {
          TakenInNext(s, WellFormed(messages[..k]), messages[k].value);
          TakeOne(messages[k].value, AllTakenIn(s, WellFormed(messages[..k])));
        }
      }
      assert messages[..|messages|] == messages;
    }

    method TakeOne(pkt: Packet, ghost s: Service)
      requires Matches(s)
      modifies this, batcher
      ensures Matches(TakenIn(s, pkt))
      ensures pendingReceipts == old(pendingReceipts) + [pkt.delivery]
      ensures batcher.historyBuffer == old(batcher.historyBuffer) + [pkt]
    {
      batcher.Add(pkt);
      pendingReceipts := pendingReceipts + [pkt.delivery];
    }

    // flushAndAck up to its first await. If flush returned at once the receipts go straight
    // to the delete loop; otherwise they wait for the flush.
    method BeginFlushAndAck(ghost s: Service, ghost st: Store)
      returns (receipts: seq<nat>, took: bool, batch: map<string, Packet>, history: seq<Packet>, ops: seq<Upsert>)
      requires Matches(s)
      modifies this, batcher
      ensures Matches(StepService(s, st, FlushAndAck))
      ensures !took ==> StepService(s, st, FlushAndAck).acking == s.acking + [receipts]
      ensures took ==> StepService(s, st, FlushAndAck).awaiting == receipts && IsOpsFor(batch, ops)
      ensures took ==> StepService(s, st, FlushAndAck).flight == Some(Flight(batch, history, Upserting({})))
      ensures receipts == old(pendingReceipts) && pendingReceipts == []
      ensures took <==> !old(batcher.flushing) && !(old(batcher.buffer) == map[] && old(batcher.historyBuffer) == [])
    {
      receipts := pendingReceipts;
      pendingReceipts := [];
      took, batch, history, ops := batcher.BeginFlush();
    }

    method BulkWriteReturned(n: nat, ghost s: Service, ghost st: Store)
      requires Matches(s) && CanStep(s, BulkDone) && n == |s.flight.value.batch|
      modifies batcher
      ensures Matches(StepService(s, st, BulkDone))
    {
      batcher.UpsertsDone(n);
    }

    method InsertManyReturned(history: seq<Packet>, ghost s: Service, ghost st: Store)
      requires Matches(s) && CanStep(s, InsertDone) && history == s.flight.value.history
      modifies batcher
      ensures Matches(StepService(s, st, InsertDone))
    {
      batcher.FinishFlush(|history|);
    }

    // The catch blocks of flush and of flushAndAck.
    method FlushFailed(receipts: seq<nat>, batch: map<string, Packet>, history: seq<Packet>, ghost s: Service,
                       ghost st: Store)
      requires Matches(s) && CanStep(s, FlushFails) && Keyed(batch)
      requires receipts == s.awaiting && batch == s.flight.value.batch && history == s.flight.value.history
      modifies this, batcher
      ensures Matches(StepService(s, st, FlushFails))
      ensures pendingReceipts == receipts + old(pendingReceipts)
      ensures batcher.historyBuffer == history + old(batcher.historyBuffer)
    {
      batcher.FailFlush(batch, history);
      pendingReceipts := receipts + pendingReceipts;
    }
  }

  // ---- no receipt goes astray ----

  // The receipts of calls in their delete loops.
  function InLoops(acking: seq<seq<nat>>): multiset<nat> {
    if acking == [] then multiset{} else InLoops(acking[..|acking| - 1]) + multiset(acking[|acking| - 1])
  }

  // All receipts an instance holds: pending, awaiting their flush, or about to be deleted.
  function HeldReceipts(s: Service): multiset<nat> {
    multiset(s.pending) + multiset(s.awaiting) + InLoops(s.acking)
  }

  lemma InLoopsMore(acking: seq<seq<nat>>, receipts: seq<nat>)
    ensures InLoops(acking + [receipts]) == InLoops(acking) + multiset(receipts)
  {
    assert (acking + [receipts])[..|acking|] == acking;
  }

  lemma {:induction false} InLoopsLess(acking: seq<seq<nat>>, call: nat, n: nat)
    requires call < |acking| && n <= |acking[call]|
    ensures InLoops(acking[call := acking[call][n..]]) + multiset(acking[call][..n]) == InLoops(acking)
  {
    var k := |acking| - 1;
    var after := acking[call := acking[call][n..]];
    if call < k {
      InLoopsLess(acking[..k], call, n);
      assert after[..k] == acking[..k][call := acking[call][n..]];
      PartsAdd(InLoops(after[..k]), multiset(acking[call][..n]), InLoops(acking[..k]), multiset(acking[k]));
    } else {
      assert after[..k] == acking[..k];
      assert acking[k] == acking[k][..n] + acking[k][n..];
      assert multiset(acking[k]) == multiset(acking[k][..n]) + multiset(acking[k][n..]);
    }
  }

  lemma PartsAdd(a: multiset<nat>, x: multiset<nat>, b: multiset<nat>, y: multiset<nat>)
    requires a + x == b
    ensures a + y + x == b + y
  {
  }

  // Every step keeps the receipts held, but that a message received adds its own, a batch
  // delete takes away its chunk of at most ten, and a crash forgets all; a completed flush
  // hands on exactly those that awaited it.
  lemma StepReceipts(s: Service, st: Store, a: Action)
    requires CanStep(s, a) && (s.flight.None? ==> s.awaiting == []) && (s.batcher.flushing <==> s.flight.Some?)
    ensures var s' := StepService(s, st, a);
            match a
            case Receive(p) => HeldReceipts(s') == HeldReceipts(s) + multiset{p.delivery}
            case DeleteChunk(call, _) =>
              var n := if |s.acking[call]| < 10 then |s.acking[call]| else 10;
              HeldReceipts(s') + multiset(s.acking[call][..n]) == HeldReceipts(s)
            case Crash => HeldReceipts(s') == multiset{}
            case InsertDone => HeldReceipts(s') == HeldReceipts(s) && s'.acking == s.acking + [s.awaiting]
            case _ => HeldReceipts(s') == HeldReceipts(s)
    ensures StepService(s, st, a).flight.None? ==> StepService(s, st, a).awaiting == []
  {
    match a
    case FlushAndAck => FlushReceipts(s, st);
    case InsertDone =>
      InLoopsMore(s.acking, s.awaiting);
      Shuffled(multiset(s.pending), multiset(s.awaiting), InLoops(s.acking));
    case FlushFails =>
      assert multiset(s.awaiting + s.pending) == multiset(s.awaiting) + multiset(s.pending);
      Shuffled(multiset(s.pending), multiset(s.awaiting), InLoops(s.acking));
    case DeleteChunk(call, _) => ChunkReceipts(s, st, a);
    case Receive(p) =>
      assert multiset(s.pending + [p.delivery]) == multiset(s.pending) + multiset{p.delivery};
      PartsAdd(multiset(s.pending), multiset{p.delivery}, multiset(s.pending + [p.delivery]),
               multiset(s.awaiting) + InLoops(s.acking));
      Shuffled(multiset(s.pending), multiset(s.awaiting), InLoops(s.acking));
      Shuffled(multiset(s.pending + [p.delivery]), multiset(s.awaiting), InLoops(s.acking));
    case _ =>
  }

  lemma Shuffled(a: multiset<nat>, b: multiset<nat>, c: multiset<nat>)
    ensures multiset{} + b + (c + a) == a + b + c
    ensures multiset{} + a + c + b == a + b + c && a + multiset{} + (c + b) == a + b + c
    ensures b + a + multiset{} + c == a + b + c && a + (b + c) == a + b + c
  {
  }

  lemma FlushReceipts(s: Service, st: Store)
    requires (s.flight.None? ==> s.awaiting == []) && (s.batcher.flushing <==> s.flight.Some?)
    ensures HeldReceipts(StepService(s, st, FlushAndAck)) == HeldReceipts(s)
  {
    InLoopsMore(s.acking, s.pending);
    Shuffled(multiset(s.pending), multiset(s.awaiting), InLoops(s.acking));
    hide InLoops;
    if !NothingToFlush(s.batcher) {
      assert s.awaiting == [];
      Shuffled(multiset{}, multiset(s.pending), InLoops(s.acking));
    }
  }

  lemma ChunkReceipts(s: Service, st: Store, a: Action)
    requires CanStep(s, a) && a.DeleteChunk?
    ensures var n := if |s.acking[a.call]| < 10 then |s.acking[a.call]| else 10;
            HeldReceipts(StepService(s, st, a)) + multiset(s.acking[a.call][..n]) == HeldReceipts(s)
  {
    var receipts := s.acking[a.call];
    var n := if |receipts| < 10 then |receipts| else 10;
    assert FirstChunk(receipts) == receipts[..n];
    InLoopsLess(s.acking, a.call, n);
    assert StepService(s, st, a).acking == s.acking[a.call := receipts[n..]];
    hide InLoops, StepService;
    PartsAdd(InLoops(s.acking[a.call := receipts[n..]]), multiset(receipts[..n]), InLoops(s.acking),
             multiset(s.pending) + multiset(s.awaiting));
  }

  // ---- the delete loop ----

  // Call number `call` of instance i has the given receipts left, and has deleted some.
  function Deleting(w: World, i: nat, call: nat, left: seq<nat>, deleted: set<nat>): World
    requires i < |w.services| && call < |w.services[i].acking|
  {
    w.(services := w.services[i := w.services[i].(acking := w.services[i].acking[call := left])],
       deleted := w.deleted + deleted)
  }

  lemma DeletingStep(w: World, i: nat, call: nat, left: seq<nat>, deleted: set<nat>, accepted: set<nat>)
    requires i < |w.services| && call < |w.services[i].acking| && forall r :: r in accepted ==> r in FirstChunk(left)
    ensures Enabled(Deleting(w, i, call, left, deleted), i, DeleteChunk(call, accepted))
    ensures Next(Deleting(w, i, call, left, deleted), i, DeleteChunk(call, accepted)) ==
            Deleting(w, i, call, left[|FirstChunk(left)|..], deleted + accepted)
  {
    var rest := left[|FirstChunk(left)|..];
    var acking := w.services[i].acking;
    assert acking[call := left][call := rest] == acking[call := rest];
    var now, later := Deleting(w, i, call, left, deleted), Deleting(w, i, call, rest, deleted + accepted);
    assert w.deleted + (deleted + accepted) == w.deleted + deleted + accepted;
    assert Next(now, i, DeleteChunk(call, accepted)).services == later.services;
  }

  lemma DeletingNothingYet(w: World, i: nat, call: nat)
    requires i < |w.services| && call < |w.services[i].acking|
    ensures Deleting(w, i, call, w.services[i].acking[call], {}) == w
  {
    assert w.services[i].acking[call := w.services[i].acking[call]] == w.services[i].acking;
    assert w.services[i := w.services[i]] == w.services;
    assert w.deleted + {} == w.deleted;
  }

  // From the n-th multiple of ten on, at most ten, and what then is left.
  lemma ChunkAt(receipts: seq<nat>, i: nat)
    requires i < |receipts|
    ensures FirstChunk(receipts[i..]) == if i + 10 <= |receipts| then receipts[i..i + 10] else receipts[i..]
    ensures receipts[i..][|FirstChunk(receipts[i..])|..] == if i + 10 <= |receipts| then receipts[i + 10..] else []
  {
  }

  // Receipt j was among the entries accepted of its chunk.
  predicate AcceptedAt(receipts: seq<nat>, replies: nat -> set<nat>, j: nat)
    requires j < |receipts|
  {
    receipts[j] in replies(j / 10)
  }

  // Of the first n receipts exactly those accepted have been deleted.
  ghost predicate DeletedOf(receipts: seq<nat>, n: nat, replies: nat -> set<nat>, deleted: set<nat>)
    requires n <= |receipts|
  {
    && (forall j :: 0 <= j < n && AcceptedAt(receipts, replies, j) ==> receipts[j] in deleted)
    && (forall r :: r in deleted ==> exists j :: 0 <= j < n && receipts[j] == r && AcceptedAt(receipts, replies, j))
  }

  lemma NextChunk(receipts: seq<nat>, at: nat, end: nat, replies: nat -> set<nat>, deleted: set<nat>)
    requires at % 10 == 0 && at < end <= |receipts| && end <= at + 10 && DeletedOf(receipts, at, replies, deleted)
    ensures DeletedOf(receipts, end, replies, deleted + Elements(receipts[at..end]) * replies(at / 10))
  {
    var chunk := receipts[at..end];
    assert forall j :: at <= j < end ==> j / 10 == at / 10 && receipts[j] == chunk[j - at];
    forall r | r in Elements(chunk) * replies(at / 10)
      ensures exists j :: 0 <= j < end && receipts[j] == r && AcceptedAt(receipts, replies, j)
    {
      var k :| 0 <= k < |chunk| && chunk[k] == r;
      assert AcceptedAt(receipts, replies, at + k);
    }
  }

  // The delete loop has done all chunks before position n.
  ghost predicate Deleted(receipts: seq<nat>, n: nat, replies: nat -> set<nat>, deleted: set<nat>,
                          w: World, i: nat, call: nat, moves: seq<Move>)
    requires n <= |receipts| && i < |w.services| && call < |w.services[i].acking|
  {
    && DeletedOf(receipts, n, replies, deleted)
    && (forall m :: m in moves ==> m.at == i && m.action.DeleteChunk? && m.action.call == call)
    && Run(w, moves, Deleting(w, i, call, receipts[n..], deleted))
  }

  lemma NothingDeleted(receipts: seq<nat>, replies: nat -> set<nat>, w: World, i: nat, call: nat)
    requires i < |w.services| && call < |w.services[i].acking| && w.services[i].acking[call] == receipts
    ensures Deleted(receipts, 0, replies, {}, w, i, call, [])
  {
    DeletingNothingYet(w, i, call);
    assert receipts[0..] == receipts;
  }

  lemma ChunkDeleted(receipts: seq<nat>, at: nat, end: nat, replies: nat -> set<nat>, deleted: set<nat>,
                     accepted: set<nat>,
                     w: World, i: nat, call: nat, moves: seq<Move>)
    requires at % 10 == 0 && at < |receipts| && end == (if at + 10 <= |receipts| then at + 10 else |receipts|)
    requires accepted == Elements(receipts[at..end]) * replies(at / 10)
    requires i < |w.services| && call < |w.services[i].acking|
    requires Deleted(receipts, at, replies, deleted, w, i, call, moves)
    ensures Deleted(receipts, end, replies, deleted + accepted, w, i, call,
                    moves + [Move(i, DeleteChunk(call, accepted))])
  {
    hide Run, Deleting, DeletedOf, AcceptedAt, FirstChunk;
    ChunkSteps(receipts, at, end, deleted, accepted, w, i, call, moves);
    NextChunk(receipts, at, end, replies, deleted);
  }

  lemma ChunkSteps(receipts: seq<nat>, at: nat, end: nat, deleted: set<nat>, accepted: set<nat>,
                   w: World, i: nat, call: nat, moves: seq<Move>)
    requires at < |receipts| && end == (if at + 10 <= |receipts| then at + 10 else |receipts|)
    requires forall r :: r in accepted ==> r in receipts[at..end]
    requires i < |w.services| && call < |w.services[i].acking|
    requires Run(w, moves, Deleting(w, i, call, receipts[at..], deleted))
    ensures Run(w, moves + [Move(i, DeleteChunk(call, accepted))],
                Deleting(w, i, call, receipts[end..], deleted + accepted))
  {
    ChunkAt(receipts, at);
    assert end == |receipts| ==> receipts[at..end] == receipts[at..] && receipts[end..] == [];
    hide Run, Deleting, FirstChunk, Next, Enabled;
    DeletingStep(w, i, call, receipts[at..], deleted, accepted);
    RunExtends(w, moves, Deleting(w, i, call, receipts[at..], deleted), Move(i, DeleteChunk(call, accepted)));
  }

  lemma AllDeleted(receipts: seq<nat>, replies: nat -> set<nat>, deleted: set<nat>, w: World, i: nat, call: nat,
                   moves: seq<Move>)
    requires i < |w.services| && call < |w.services[i].acking|
    requires Deleted(receipts, |receipts|, replies, deleted, w, i, call, moves)
    ensures DeletedOf(receipts, |receipts|, replies, deleted)
    ensures forall m :: m in moves ==> m.at == i && m.action.DeleteChunk? && m.action.call == call
    ensures Run(w, moves, Deleting(w, i, call, [], deleted))
  {
    assert receipts[|receipts|..] == [];
  }

  // `replies(n)` holds the entries that the n-th batch delete accepts; a call that fails
  // accepts none, is logged, and the loop goes on. The receipts deleted are exactly those
  // accepted, and the loop takes the protocol's DeleteChunk steps until none is left.
  method DeleteAll(receipts: seq<nat>, replies: nat -> set<nat>, ghost w: World, ghost i: nat, ghost call: nat)
    returns (deleted: set<nat>, ghost moves: seq<Move>)
    requires i < |w.services| && call < |w.services[i].acking| && w.services[i].acking[call] == receipts
    ensures DeletedOf(receipts, |receipts|, replies, deleted)
    ensures forall m :: m in moves ==> m.at == i && m.action.DeleteChunk? && m.action.call == call
    ensures Run(w, moves, Deleting(w, i, call, [], deleted))
  {
    deleted := {};
    moves := [];
    var at := 0;
    ghost var done: nat := 0;
    NothingDeleted(receipts, replies, w, i, call);
    hide Deleted, Deleting, DeletedOf, Run, Elements, AcceptedAt;
    while at < |receipts|
      invariant at % 10 == 0 && done == if at <= |receipts| then at else |receipts|
      invariant Deleted(receipts, done, replies, deleted, w, i, call, moves)
      decreases |receipts| - at
    {
      var end := if at + 10 <= |receipts| then at + 10 else |receipts|;
      var accepted := Elements(receipts[at..end]) * replies(at / 10);
      ChunkDeleted(receipts, at, end, replies, deleted, accepted, w, i, call, moves);
      moves := moves + [Move(i, DeleteChunk(call, accepted))];
      deleted := deleted + accepted;
      at := at + 10;
      done := end;
    }
    AllDeleted(receipts, replies, deleted, w, i, call, moves);
  }
}
