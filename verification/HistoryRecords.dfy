// The history records: conserved in order in every run, and each stored once when failed
// inserts write nothing.
module HistoryRecords {
  import opened Packets
  import opened LastWriteWins
  import opened Ingestion
  import opened DeleteAfterFlush

  // In every run, overlapping flushAndAck calls included: completed flushes, the batch in
  // flight and the buffer are the received sequence in order, and the counters agree.
  lemma HistoryConserved(n: nat, moves: seq<Move>, w: World, i: nat)
    requires Run(Initial(n), moves, w) && i < |w.services|
    ensures var s := w.services[i];
            && s.log == s.committed + InFlight(s) + s.batcher.historyBuffer
            && s.batcher.stats.received == s.batcher.stats.history + |InFlight(s)| + |s.batcher.historyBuffer|
            && (forall p :: p in s.log ==> p in w.store.history || p in Unstored(s))
            && IsIndex(s.batcher.buffer, s.batcher.historyBuffer)
  {
    InitialInv(n);
    RunKeeps(Initial(n), moves, w);
    hide Run;
    ServiceConserved(w.services[i], w.store);
  }

  lemma ServiceConserved(s: Service, st: Store)
    requires ServiceInv(s, st)
    ensures s.log == s.committed + InFlight(s) + s.batcher.historyBuffer
    ensures s.batcher.stats.received == s.batcher.stats.history + |InFlight(s)| + |s.batcher.historyBuffer|
    ensures forall p :: p in s.log ==> p in st.history || p in Unstored(s)
    ensures IsIndex(s.batcher.buffer, s.batcher.historyBuffer)
  {
    assert s.committed + Unstored(s) == s.committed + InFlight(s) + s.batcher.historyBuffer;
  }

  // A failed insertMany wrote nothing, and the process keeps running.
  predicate AllOrNothing(w: World, m: Move)
    requires Enabled(w, m.at, m.action)
  {
    && !m.action.Crash?
    && (m.action.FlushFails? ==>
          var f := w.services[m.at].flight.value; f.phase.Inserting? ==> f.phase.todo == multiset(f.history))
  }

  ghost predicate AllOrNothingRun(w: World, moves: seq<Move>, w': World)
    decreases |moves|
  {
    if moves == [] then w == w'
    else Enabled(w, moves[0].at, moves[0].action) && AllOrNothing(w, moves[0])
         && AllOrNothingRun(Next(w, moves[0].at, moves[0].action), moves[1..], w')
  }

  // What of an instance's packets the history collection holds: the completed flushes, and in
  // the middle of an insert what that insert has written.
  ghost function Written(s: Service): multiset<Packet> {
    multiset(s.committed) +
    if s.flight.Some? && s.flight.value.phase.Inserting?
    then multiset(s.flight.value.history) - s.flight.value.phase.todo
    else multiset{}
  }

  // And what it has yet to write.
  ghost function ToWrite(s: Service): multiset<Packet> {
    multiset(s.batcher.historyBuffer) +
    if s.flight.None? then multiset{}
    else if s.flight.value.phase.Inserting? then s.flight.value.phase.todo
    else multiset(s.flight.value.history)
  }

  ghost function Logged(s: Service): multiset<Packet> {
    multiset(s.log)
  }

  lemma WrittenOrToWrite(s: Service, st: Store)
    requires ServiceInv(s, st)
    ensures Written(s) + ToWrite(s) == Logged(s)
  {
    assert multiset(s.committed + InFlight(s) + s.batcher.historyBuffer) ==
           multiset(s.committed) + multiset(InFlight(s)) + multiset(s.batcher.historyBuffer);
    assert s.committed + Unstored(s) == s.committed + InFlight(s) + s.batcher.historyBuffer;
  }

  // Over all instances.
  ghost function Total(ss: seq<Service>, f: Service -> multiset<Packet>): multiset<Packet> {
    if ss == [] then multiset{} else Total(ss[..|ss| - 1], f) + f(ss[|ss| - 1])
  }

  lemma AddBoth(a: multiset<Packet>, x: multiset<Packet>, b: multiset<Packet>, y: multiset<Packet>, c: multiset<Packet>)
    requires a + x == b + y
    ensures a + c + x == b + c + y
  {
    forall p ensures (a + c + x)[p] == (b + c + y)[p] {
      assert (a + x)[p] == (b + y)[p];
    }
  }

  lemma {:induction false} TotalUpdate(ss: seq<Service>, f: Service -> multiset<Packet>, i: nat, s: Service)
    requires i < |ss|
    ensures Total(ss[i := s], f) + f(ss[i]) == Total(ss, f) + f(s)
  {
    var n := |ss| - 1;
    var ss' := ss[i := s];
    assert Total(ss', f) == Total(ss'[..n], f) + f(ss'[n]) && Total(ss, f) == Total(ss[..n], f) + f(ss[n]);
    if i < n {
      TotalUpdate(ss[..n], f, i, s);
      assert ss'[..n] == ss[..n][i := s];
      AddBoth(Total(ss'[..n], f), f(ss[i]), Total(ss[..n], f), f(s), f(ss[n]));
    } else {
      assert ss'[..n] == ss[..n];
    }
  }

  lemma {:induction false} TotalSum(ss: seq<Service>, st: Store)
    requires forall i :: 0 <= i < |ss| ==> ServiceInv(ss[i], st)
    ensures Total(ss, Written) + Total(ss, ToWrite) == Total(ss, Logged)
  {
    if ss != [] {
      WrittenOrToWrite(ss[|ss| - 1], st);
      hide ServiceInv, Written, ToWrite, Logged;
      TotalSum(ss[..|ss| - 1], st);
    }
  }

  lemma {:induction false} TotalStarted(n: nat)
    ensures Total(Initial(n).services, Written) == multiset{} == Total(Initial(n).services, Logged)
  {
    if n > 0 {
      TotalStarted(n - 1);
      assert Initial(n).services[..n - 1] == Initial(n - 1).services;
    }
  }

  // A step writes what it adds to the history collection.
  lemma StepWrites(s: Service, st: Store, a: Action)
    requires ServiceInv(s, st) && CanStep(s, a) && !a.Crash?
    requires a.FlushFails? && s.flight.value.phase.Inserting? ==>
        s.flight.value.phase.todo == multiset(s.flight.value.history)
    ensures Written(StepService(s, st, a)) == Written(s) + if a.InsertOne? then multiset{a.q} else multiset{}
  {
    if a.InsertOne? {
      assert Written(StepService(s, st, a)) == Written(s) + multiset{a.q} by {
        OneWritten(multiset(s.committed), multiset(s.flight.value.history), s.flight.value.phase.todo, a.q);
      }
    } else {
      WritesNothing(s, st, a);
      hide *;
    }
  }

  lemma WritesNothing(s: Service, st: Store, a: Action)
    requires CanStep(s, a) && !a.Crash? && !a.InsertOne? && (s.batcher.flushing <==> s.flight.Some?)
    requires a.FlushFails? && s.flight.value.phase.Inserting? ==>
        s.flight.value.phase.todo == multiset(s.flight.value.history)
    ensures Written(StepService(s, st, a)) == Written(s)
  {
    if a.InsertDone? {
      InsertDoneWrites(s, st);
    } else if a.BulkDone? || a.FlushFails? {
      assert multiset(s.flight.value.history) - multiset(s.flight.value.history) == multiset{};
    }
  }

  lemma InsertDoneWrites(s: Service, st: Store)
    requires CanStep(s, InsertDone)
    ensures Written(StepService(s, st, InsertDone)) == Written(s)
  {
    var h := s.flight.value.history;
    assert StepService(s, st, InsertDone).committed == s.committed + h;
    assert multiset(s.committed + h) == multiset(s.committed) + multiset(h);
    assert multiset(h) - multiset{} == multiset(h);
  }

  lemma OneWritten(before: multiset<Packet>, all: multiset<Packet>, todo: multiset<Packet>, p: Packet)
    requires p in todo && todo <= all
    ensures before + (all - (todo - multiset{p})) == before + (all - todo) + multiset{p}
  {
  }

  lemma StepLogged(s: Service, st: Store, a: Action)
    requires CanStep(s, a) && !a.Crash?
    ensures Logged(StepService(s, st, a)) == Logged(s) + if a.Receive? then multiset{a.p} else multiset{}
  {
  }

  // The history collection is what the instances have written, their logs are what has
  // arrived, and what has arrived is told apart by its delivery.
  ghost predicate ExactHistory(w: World) {
    && w.store.history == Total(w.services, Written)
    && Total(w.services, Logged) == multiset(w.arrived)
    && (forall p :: p in w.arrived ==> p.delivery in w.owner)
  }

  lemma StepHistory(s: Service, st: Store, a: Action)
    requires CanStep(s, a)
    ensures StepStore(s, st, a).history == st.history + if a.InsertOne? then multiset{a.q} else multiset{}
  {
  }

  lemma NewArrival(w: World, m: Move)
    requires ExactHistory(w) && Enabled(w, m.at, m.action)
    ensures multiset(Next(w, m.at, m.action).arrived) ==
            multiset(w.arrived) + if m.action.Receive? then multiset{m.action.p} else multiset{}
    ensures forall p :: p in Next(w, m.at, m.action).arrived ==> p.delivery in Next(w, m.at, m.action).owner
  {
    assert m.action.Receive? ==> m.action.p !in w.arrived;
  }

  lemma ArrivalsKept(w: World, m: Move)
    requires ExactHistory(w) && Enabled(w, m.at, m.action) && !m.action.Crash?
    ensures Total(Next(w, m.at, m.action).services, Logged) == multiset(Next(w, m.at, m.action).arrived)
  {
    NewArrival(w, m);
    var w' := Next(w, m.at, m.action);
    var s, s' := w.services[m.at], w'.services[m.at];
    StepLogged(s, w.store, m.action);
    TotalUpdate(w.services, Logged, m.at, s');
    assert w'.services == w.services[m.at := s'];
    hide Logged;
    Balance(multiset(w'.arrived), Logged(s), Total(w'.services, Logged));
  }

  lemma WritingKept(w: World, m: Move)
    requires WorldInv(w) && ExactHistory(w) && Enabled(w, m.at, m.action) && AllOrNothing(w, m)
    ensures Next(w, m.at, m.action).store.history == Total(Next(w, m.at, m.action).services, Written)
  {
    hide ServiceInv, StoreInv;
    var w' := Next(w, m.at, m.action);
    var s, s' := w.services[m.at], w'.services[m.at];
    StepWrites(s, w.store, m.action);
    StepHistory(s, w.store, m.action);
    TotalUpdate(w.services, Written, m.at, s');
    assert w'.services == w.services[m.at := s'];
    hide Written;
    Balance(w'.store.history, Written(s), Total(w'.services, Written));
  }

  lemma StepExactHistory(w: World, m: Move)
    requires WorldInv(w) && ExactHistory(w) && Enabled(w, m.at, m.action) && AllOrNothing(w, m)
    ensures ExactHistory(Next(w, m.at, m.action))
  {
    NewArrival(w, m);
    ArrivalsKept(w, m);
    WritingKept(w, m);
    hide Next, Total;
  }

  lemma Balance(a: multiset<Packet>, x: multiset<Packet>, c: multiset<Packet>)
    requires a + x == c + x
    ensures a == c
  {
    forall p ensures a[p] == c[p] {
      assert (a + x)[p] == (c + x)[p];
    }
  }

  lemma {:induction false} ExactHistoryRun(w: World, moves: seq<Move>, w': World)
    requires WorldInv(w) && ExactHistory(w) && AllOrNothingRun(w, moves, w')
    ensures WorldInv(w') && ExactHistory(w')
    decreases |moves|
  {
    hide ExactHistory, WorldInv, Next, Enabled;
    if moves != [] {
      WorldKeeps(w, moves[0].at, moves[0].action);
      StepExactHistory(w, moves[0]);
      ExactHistoryRun(Next(w, moves[0].at, moves[0].action), moves[1..], w');
    }
  }

  // When failed inserts write nothing, each received packet is in exactly one place: in every
  // run of any number of instances, in the middle of an insert too, the history collection
  // and what the instances have yet to write are together what has arrived, each packet once.
  lemma HistoryExactlyOnce(n: nat, moves: seq<Move>, w: World)
    requires AllOrNothingRun(Initial(n), moves, w)
    ensures w.store.history == Total(w.services, Written)
    ensures w.store.history + Total(w.services, ToWrite) == multiset(w.arrived)
  {
    InitialInv(n);
    TotalStarted(n);
    ExactHistoryRun(Initial(n), moves, w);
    TotalSum(w.services, w.store);
  }
}
