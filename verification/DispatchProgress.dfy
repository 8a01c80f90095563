// Progress of ride requests: no request is ever stuck, none takes more than nine steps, and
// each can be answered within eleven steps, the release of a row lock included.
module DispatchProgress {
  import opened Dispatch

  // The steps a request has yet to take, at most.
  function StepsLeft(pc: Pc): nat {
    match pc
    case Start => 9
    case Missed => 8
    case HasRows(_, _) => 7
    case Filling(_) => 6
    case HasList(_) => 5
    case Chose(_) => 4
    case Updated(_) => 3
    case Inserted(_) => 2
    case Committed(_) => 1
    case Done(_) => 0
  }

  predicate OwnStep(a: Action, r: nat) {
    !Environment(a) && a.r == r
  }

  // Its own step brings a request nearer to its answer; no other step moves it.
  lemma StepAdvances(ro: Roster, s: System, a: Action, r: nat)
    requires Enabled(ro, s, a) && At(s, r)
    ensures At(Next(ro, s, a), r)
    ensures OwnStep(a, r) ==> StepsLeft(PcOf(Next(ro, s, a), r)) < StepsLeft(PcOf(s, r))
    ensures !OwnStep(a, r) ==> PcOf(Next(ro, s, a), r) == PcOf(s, r)
  {
    StepKeepsRequests(ro, s, a);
    if OwnStep(a, r) {
      OwnStepAdvances(ro, s, a);
    } else {
      OthersUnchanged(ro, s, a, r);
    }
    hide Next, Enabled, StepsLeft, Environment;
  }

  lemma StepKeepsRequests(ro: Roster, s: System, a: Action)
    requires Enabled(ro, s, a)
    ensures s.requests.Keys <= Next(ro, s, a).requests.Keys
  {
  }

  lemma OwnStepAdvances(ro: Roster, s: System, a: Action)
    requires Enabled(ro, s, a) && !Environment(a) && At(s, a.r) && At(Next(ro, s, a), a.r)
    ensures StepsLeft(PcOf(Next(ro, s, a), a.r)) < StepsLeft(PcOf(s, a.r))
  {
  }

  function OwnSteps(actions: seq<Action>, r: nat): nat {
    if actions == [] then 0 else (if OwnStep(actions[0], r) then 1 else 0) + OwnSteps(actions[1..], r)
  }

  // In every run a request takes at most nine steps from its start to its answer.
  lemma {:induction false} OwnStepsBounded(ro: Roster, s: System, actions: seq<Action>, t: System, r: nat)
    requires Run(ro, s, actions, t) && At(s, r)
    ensures At(t, r) && OwnSteps(actions, r) + StepsLeft(PcOf(t, r)) <= StepsLeft(PcOf(s, r)) <= 9
    decreases |actions|
  {
    if actions != [] {
      StepAdvances(ro, s, actions[0], r);
      hide Next, Enabled, StepsLeft;
      OwnStepsBounded(ro, Next(ro, s, actions[0]), actions[1..], t, r);
    }
  }

  // The request waits for a row that another transaction has locked.
  predicate Waits(s: System, r: nat) {
    At(s, r) && PcOf(s, r).Chose? && PcOf(s, r).vehicle in s.locks
  }

  // The step is neither a failure nor of uncertain outcome.
  predicate Sound(a: Action) {
    !Environment(a) && !a.Fail? && !a.CommitUnsure?
  }

  // A request that is not answered and not waiting can take a step of its own.
  lemma OwnStepEnabled(ro: Roster, s: System, r: nat) returns (a: Action)
    requires At(s, r) && !PcOf(s, r).Done? && !Waits(s, r) && s.replica <= |s.rides|
    ensures Enabled(ro, s, a) && Sound(a) && a.r == r
  {
    match PcOf(s, r)
    case Start =>
      var k := s.requests[r].passengers;
      a := if k in s.cache && Live(s.cache[k], s.now) then CacheHit(r) else CacheMiss(r, false);
    case Missed => a := QueryRows(r);
    case HasRows(_, rows) =>
      var found := InSomeOrder(rows * s.docs);
      a := FindDocs(r, found);
    case Filling(_) => a := Fill(r, true);
    case HasList(l) => a := if l.vehicles != [] then Choose(r, l.vehicles[0]) else NoChoice(r);
    case Chose(_) => a := Update(r);
    case Updated(_) => a := Insert(r);
    case Inserted(_) => a := Commit(r);
    case Committed(_) => a := Invalidate(r, true);
  }

  // Nobody is stuck: in every reachable state each request not yet answered can take a step,
  // or waits for a row lock whose holder can.
  lemma NobodyIsStuck(ro: Roster, docs: set<string>, now: int, actions: seq<Action>, s: System, r: nat)
    returns (a: Action)
    requires Run(ro, InitialSystem(ro, docs, now), actions, s) && At(s, r) && !PcOf(s, r).Done?
    ensures Enabled(ro, s, a) && Sound(a)
    ensures a.r == if Waits(s, r) then s.locks[PcOf(s, r).vehicle] else r
    ensures Waits(s, r) ==> a.r != r && (a.Insert? || a.Commit?)
  {
    Reached(ro, docs, now, actions, s);
    hide Run, Lists, Cleared, AllBooked;
    if Waits(s, r) {
      var v := PcOf(s, r).vehicle;
      assert HoldsAt(s, s.locks[v], v);
      a := OwnStepEnabled(ro, s, s.locks[v]);
    } else {
      a := OwnStepEnabled(ro, s, r);
    }
  }

  // The holder of a row lock releases it by committing, in two steps at most; meanwhile no
  // other request moves.
  lemma LockIsReleased(ro: Roster, s: System, v: string, r: nat) returns (more: seq<Action>, t: System)
    requires Locking(s) && Books(ro, s) && v in s.locks && At(s, r) && r != s.locks[v]
    ensures Run(ro, s, more, t) && |more| <= 2 && (forall k :: 0 <= k < |more| ==> Sound(more[k]))
    ensures v !in t.locks && At(t, r) && PcOf(t, r) == PcOf(s, r) && Locking(t) && Books(ro, t)
  {
    var h := s.locks[v];
    assert HoldsAt(s, h, v);
    if PcOf(s, h).Updated? {
      InsertFirst(ro, s, v, r);
      var m := Next(ro, s, Insert(h));
      hide Next, Books, Locking, Enabled;
      more, t := CommitReleases(ro, m, v, r);
      more := [Insert(h)] + more;
      assert more[1..] == [Commit(h)];
    } else {
      more, t := CommitReleases(ro, s, v, r);
      hide Next, Books, Locking, Enabled, Run;
    }
  }

  lemma InsertFirst(ro: Roster, s: System, v: string, r: nat)
    requires Locking(s) && Books(ro, s) && v in s.locks && At(s, s.locks[v]) && PcOf(s, s.locks[v]) == Updated(v)
    requires At(s, r) && r != s.locks[v]
    ensures Enabled(ro, s, Insert(s.locks[v]))
    ensures var m := Next(ro, s, Insert(s.locks[v]));
            && m.locks == s.locks && Locking(m) && Books(ro, m) && At(m, r) && PcOf(m, r) == PcOf(s, r)
            && At(m, s.locks[v]) && PcOf(m, s.locks[v]) == Inserted(v)
  {
    StepBooks(ro, s, Insert(s.locks[v]));
    StepLocking(ro, s, Insert(s.locks[v]));
  }

  lemma CommitReleases(ro: Roster, s: System, v: string, r: nat) returns (more: seq<Action>, t: System)
    requires Locking(s) && Books(ro, s) && v in s.locks && At(s, s.locks[v]) && PcOf(s, s.locks[v]) == Inserted(v)
    requires At(s, r) && r != s.locks[v]
    ensures more == [Commit(s.locks[v])] && Run(ro, s, more, t)
    ensures v !in t.locks && At(t, r) && PcOf(t, r) == PcOf(s, r) && Locking(t) && Books(ro, t)
  {
    var a := Commit(s.locks[v]);
    more, t := [a], Next(ro, s, a);
    StepBooks(ro, s, a);
    StepLocking(ro, s, a);
    StepAdvances(ro, s, a, r);
    assert Run(ro, t, more[1..], t);
  }

  // From every state with balanced books and consistent locks a request can be brought to
  // its answer without any failure, a lock it waits for being released first.
  lemma {:induction false} CanBeAnswered(ro: Roster, s: System, r: nat) returns (more: seq<Action>, t: System)
    requires Locking(s) && Books(ro, s) && At(s, r)
    ensures Run(ro, s, more, t) && (forall k :: 0 <= k < |more| ==> Sound(more[k]))
    ensures At(t, r) && PcOf(t, r).Done?
    ensures |more| <= StepsLeft(PcOf(s, r)) + if StepsLeft(PcOf(s, r)) >= 4 then 2 else 0
    decreases StepsLeft(PcOf(s, r)), Waits(s, r)
  {
    hide Locking, Books, Run, Sound;
    if PcOf(s, r).Done? {
      more, t := [], s;
      NothingRun(ro, s);
    } else if Waits(s, r) {
      HolderIsOther(s, PcOf(s, r).vehicle, r);
      var first, m := LockIsReleased(ro, s, PcOf(s, r).vehicle, r);
      var rest;
      rest, t := TakesStep(ro, m, r);
      more := first + rest;
      RunsOn(ro, s, first, m, rest, t);
    } else {
      more, t := TakesStep(ro, s, r);
    }
  }

  lemma HolderIsOther(s: System, v: string, r: nat)
    requires Locking(s) && v in s.locks && At(s, r) && PcOf(s, r).Chose?
    ensures s.locks[v] != r
  {
    assert HoldsAt(s, s.locks[v], v);
  }

  lemma {:induction false} TakesStep(ro: Roster, s: System, r: nat) returns (more: seq<Action>, t: System)
    requires Locking(s) && Books(ro, s) && At(s, r) && !PcOf(s, r).Done? && !Waits(s, r)
    ensures Run(ro, s, more, t) && (forall k :: 0 <= k < |more| ==> Sound(more[k]))
    ensures At(t, r) && PcOf(t, r).Done?
    ensures |more| <= StepsLeft(PcOf(s, r)) + if StepsLeft(PcOf(s, r)) >= 5 then 2 else 0
    decreases StepsLeft(PcOf(s, r)), false, 0
  {
    var a := OwnStepEnabled(ro, s, r);
    var m := Next(ro, s, a);
    StepBooks(ro, s, a);
    StepLocking(ro, s, a);
    StepAdvances(ro, s, a, r);
    hide Next, Enabled, Books, Locking;
    var rest;
    rest, t := CanBeAnswered(ro, m, r);
    more := [a] + rest;
    assert more[1..] == rest;
  }
}
