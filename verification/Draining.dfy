// Draining: from every reachable state of any number of instances, flushes alone, started
// only when none is in flight, bring everything in memory to the database and lose nothing.
module Draining {
  import opened Basics
  import opened Ingestion
  import opened DeleteAfterFlush
  import opened Convergence

  predicate Flushing(a: Action) {
    a.FlushAndAck? || a.ApplyUpsert? || a.BulkDone? || a.InsertOne? || a.InsertDone?
  }

  // A run of flush steps, each flush started only when none is in flight.
  ghost predicate CalmRun(w: World, moves: seq<Move>, w': World)
    decreases |moves|
  {
    if moves == [] then w == w'
    else Enabled(w, moves[0].at, moves[0].action) && Calm(w, moves[0])
         && CalmRun(Next(w, moves[0].at, moves[0].action), moves[1..], w')
  }

  predicate Calm(w: World, m: Move) {
    Flushing(m.action) && (m.action.FlushAndAck? && m.at < |w.services| ==> !w.services[m.at].batcher.flushing)
  }

  lemma {:induction false} CalmIsGuarded(w: World, moves: seq<Move>, w': World)
    requires CalmRun(w, moves, w')
    ensures GuardedRun(w, moves, w')
    decreases |moves|
  {
    hide Next, Enabled;
    if moves != [] {
      CalmIsGuarded(Next(w, moves[0].at, moves[0].action), moves[1..], w');
    }
  }

  lemma {:induction false} CalmRunsOn(w: World, xs: seq<Move>, m: World, ys: seq<Move>, w': World)
    requires CalmRun(w, xs, m) && CalmRun(m, ys, w')
    ensures CalmRun(w, xs + ys, w')
    decreases |xs|
  {
    hide Next, Enabled, Calm;
    if xs == [] {
      assert xs + ys == ys;
    } else {
      assert (xs + ys)[1..] == xs[1..] + ys;
      CalmRunsOn(Next(w, xs[0].at, xs[0].action), xs[1..], m, ys, w');
    }
  }

  // A calm run, in which nothing arrives, is deleted, given up or lost.
  ghost predicate Flushes(w: World, moves: seq<Move>, w': World) {
    && CalmRun(w, moves, w')
    && w'.arrived == w.arrived && w'.lost == w.lost && w'.deleted == w.deleted && w'.adrift == w.adrift
    && WorldInv(w')
  }

  // As Flushes, at instance i only.
  ghost predicate FlushesAt(w: World, i: nat, moves: seq<Move>, w': World) {
    Flushes(w, moves, w') && OthersSame(w, w', i)
  }

  lemma FlushesOn(w: World, i: nat, xs: seq<Move>, m: World, ys: seq<Move>, w': World)
    requires FlushesAt(w, i, xs, m) && FlushesAt(m, i, ys, w')
    ensures FlushesAt(w, i, xs + ys, w')
  {
    hide CalmRun, WorldInv;
    CalmRunsOn(w, xs, m, ys, w');
  }

  lemma NoFlushes(w: World, i: nat)
    requires WorldInv(w)
    ensures FlushesAt(w, i, [], w)
  {
  }

  // One flush step.
  lemma OneStep(w: World, i: nat, a: Action) returns (w': World)
    requires WorldInv(w) && Enabled(w, i, a) && Flushing(a) && (a.FlushAndAck? ==> !w.services[i].batcher.flushing)
    ensures FlushesAt(w, i, [Move(i, a)], w') && w' == Next(w, i, a)
  {
    WorldKeeps(w, i, a);
    w' := Next(w, i, a);
    assert CalmRun(w', [Move(i, a)][1..], w');
  }

  // ---- one flight ----

  lemma {:induction false} UpsertsLand(w: World, i: nat) returns (moves: seq<Move>, w': World)
    requires WorldInv(w) && i < |w.services| && w.services[i].flight.Some?
    requires w.services[i].flight.value.phase.Upserting?
    ensures FlushesAt(w, i, moves, w') && w'.services[i].batcher == w.services[i].batcher
    ensures w'.services[i].flight ==
            Some(w.services[i].flight.value.(phase := Upserting(w.services[i].flight.value.batch.Keys)))
    decreases w.services[i].flight.value.batch.Keys - w.services[i].flight.value.phase.applied
  {
    var f := w.services[i].flight.value;
    assert f.phase.applied <= f.batch.Keys;
    if f.batch.Keys <= f.phase.applied {
      assert f.phase.applied == f.batch.Keys;
      moves, w' := [], w;
      NoFlushes(w, i);
    } else {
      var id :| id in f.batch && id !in f.phase.applied;
      var m := OneStep(w, i, ApplyUpsert(id));
      var rest;
      hide FlushesAt, WorldInv;
      WorldOf(w, i, [Move(i, ApplyUpsert(id))], m);
      rest, w' := UpsertsLand(m, i);
      moves := [Move(i, ApplyUpsert(id))] + rest;
      FlushesOn(w, i, [Move(i, ApplyUpsert(id))], m, rest, w');
    }
  }

  lemma WorldOf(w: World, i: nat, moves: seq<Move>, w': World)
    requires FlushesAt(w, i, moves, w')
    ensures WorldInv(w') && OthersSame(w, w', i)
  {
  }

  lemma {:induction false} InsertsLand(w: World, i: nat) returns (moves: seq<Move>, w': World)
    requires WorldInv(w) && i < |w.services| && w.services[i].flight.Some?
    requires w.services[i].flight.value.phase.Inserting?
    ensures FlushesAt(w, i, moves, w') && w'.services[i].batcher == w.services[i].batcher
    ensures w'.services[i].flight == Some(w.services[i].flight.value.(phase := Inserting(multiset{})))
    decreases |w.services[i].flight.value.phase.todo|
  {
    var todo := w.services[i].flight.value.phase.todo;
    if todo == multiset{} {
      moves, w' := [], w;
      NoFlushes(w, i);
    } else {
      var q :| q in todo;
      var m := OneStep(w, i, InsertOne(q));
      var rest;
      hide FlushesAt, WorldInv;
      WorldOf(w, i, [Move(i, InsertOne(q))], m);
      assert |todo - multiset{q}| < |todo|;
      rest, w' := InsertsLand(m, i);
      moves := [Move(i, InsertOne(q))] + rest;
      FlushesOn(w, i, [Move(i, InsertOne(q))], m, rest, w');
    }
  }

  lemma InsertsEnd(w: World, i: nat) returns (moves: seq<Move>, w': World)
    requires WorldInv(w) && i < |w.services| && w.services[i].flight.Some?
    requires w.services[i].flight.value.phase.Inserting?
    ensures FlushesAt(w, i, moves, w') && w'.services[i].flight.None? && !w'.services[i].batcher.flushing
    ensures w'.services[i].batcher.historyBuffer == w.services[i].batcher.historyBuffer
  {
    var m;
    moves, m := InsertsLand(w, i);
    WorldOf(w, i, moves, m);
    w' := OneStep(m, i, InsertDone);
    FlushesOn(w, i, moves, m, [Move(i, InsertDone)], w');
    moves := moves + [Move(i, InsertDone)];
    hide FlushesAt, WorldInv;
  }

  // A flush in flight can end well.
  lemma FlightLands(w: World, i: nat) returns (moves: seq<Move>, w': World)
    requires WorldInv(w) && i < |w.services| && w.services[i].flight.Some?
    ensures FlushesAt(w, i, moves, w') && w'.services[i].flight.None? && !w'.services[i].batcher.flushing
    ensures w'.services[i].batcher.historyBuffer == w.services[i].batcher.historyBuffer
  {
    hide FlushesAt, WorldInv, Next;
    if w.services[i].flight.value.phase.Inserting? {
      moves, w' := InsertsEnd(w, i);
    } else {
      var first, m := UpsertsLand(w, i);
      WorldOf(w, i, first, m);
      var m2 := BulkEnds(m, i);
      WorldOf(m, i, [Move(i, BulkDone)], m2);
      FlushesOn(w, i, first, m, [Move(i, BulkDone)], m2);
      var rest;
      rest, w' := InsertsEnd(m2, i);
      FlushesOn(w, i, first + [Move(i, BulkDone)], m2, rest, w');
      moves := first + [Move(i, BulkDone)] + rest;
    }
  }

  lemma BulkEnds(w: World, i: nat) returns (w': World)
    requires WorldInv(w) && i < |w.services| && CanStep(w.services[i], BulkDone)
    ensures FlushesAt(w, i, [Move(i, BulkDone)], w')
    ensures w'.services[i].flight.Some? && w'.services[i].flight.value.phase.Inserting?
    ensures w'.services[i].batcher.historyBuffer == w.services[i].batcher.historyBuffer
  {
    w' := OneStep(w, i, BulkDone);
    hide FlushesAt, WorldInv;
  }

  // ---- one instance, all instances ----

  // An idle instance takes what it has buffered into a flight, if anything.
  lemma BufferTakesOff(w: World, i: nat) returns (w': World)
    requires WorldInv(w) && i < |w.services| && w.services[i].flight.None?
    ensures FlushesAt(w, i, [Move(i, FlushAndAck)], w') && w'.services[i].batcher.historyBuffer == []
  {
    assert ServiceInv(w.services[i], w.store);
    w' := OneStep(w, i, FlushAndAck);
    hide FlushesAt, WorldInv;
  }

  lemma InstanceDrains(w: World, i: nat) returns (moves: seq<Move>, w': World)
    requires WorldInv(w) && i < |w.services|
    ensures FlushesAt(w, i, moves, w') && Unstored(w'.services[i]) == []
  {
    hide FlushesAt, WorldInv, Next;
    var m := w;
    moves := [];
    NoFlushes(w, i);
    if w.services[i].flight.Some? {
      moves, m := FlightLands(w, i);
    }
    WorldOf(w, i, moves, m);
    w' := BufferTakesOff(m, i);
    WorldOf(m, i, [Move(i, FlushAndAck)], w');
    FlushesOn(w, i, moves, m, [Move(i, FlushAndAck)], w');
    moves := moves + [Move(i, FlushAndAck)];
    if w'.services[i].flight.Some? {
      var m2 := w';
      var rest;
      rest, w' := FlightLands(m2, i);
      FlushesOn(w, i, moves, m2, rest, w');
      moves := moves + rest;
    }
  }

  lemma {:induction false} InstancesDrain(w: World, n: nat) returns (moves: seq<Move>, w': World)
    requires WorldInv(w) && n <= |w.services|
    ensures Flushes(w, moves, w') && |w'.services| == |w.services|
    ensures forall i :: 0 <= i < n ==> Unstored(w'.services[i]) == []
  {
    if n == 0 {
      moves, w' := [], w;
    } else {
      var first, m := InstancesDrain(w, n - 1);
      hide CalmRun, WorldInv;
      var rest;
      rest, w' := InstanceDrains(m, n - 1);
      CalmRunsOn(w, first, m, rest, w');
      moves := first + rest;
    }
  }

  // From every reachable state of any number of instances, some run of flush steps, each
  // started only when none is in flight, ends with nothing in memory, and loses nothing.
  lemma CanDrain(n: nat, before: seq<Move>, w: World) returns (more: seq<Move>, w': World)
    requires Run(Initial(n), before, w)
    ensures Flushes(w, more, w') && Drained(w')
  {
    InitialInv(n);
    RunKeeps(Initial(n), before, w);
    more, w' := InstancesDrain(w, |w.services|);
  }

  // There every packet received by anyone that no crash lost is in the history collection,
  // and its vehicle's document has the greatest timestamp of them, or a greater one.
  lemma DrainedStateExists(n: nat, before: seq<Move>, w: World) returns (more: seq<Move>, w': World)
    requires Run(Initial(n), before, w)
    ensures Flushes(w, more, w') && Drained(w')
    ensures forall p :: p in w.arrived && p.delivery !in w.lost ==>
              p in w'.store.history && StoredAt(w'.store, p.vehicleID, p.timestamp)
  {
    more, w' := CanDrain(n, before, w);
    CalmIsGuarded(w, more, w');
    GuardedRunIsRun(w, more, w');
    hide Run, GuardedRun, CalmRun, WorldInv, Drained;
    RunsOn(Initial(n), before, w, more, w');
    forall p | p in w.arrived && p.delivery !in w.lost
      ensures p in w'.store.history && StoredAt(w'.store, p.vehicleID, p.timestamp)
    {
      Converges(n, before + more, w', p);
    }
  }
}
