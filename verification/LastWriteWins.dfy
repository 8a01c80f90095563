// The one merge behind add, the database guard and the restore after a failed flush: the
// packet with the larger timestamp wins, and of two equal ones the later to arrive.
module LastWriteWins {
  import opened Basics
  import opened Packets

  // b arrived after a.
  function Merge(a: Option<Packet>, b: Option<Packet>): Option<Packet> {
    if b.None? then a
    else if a.None? || b.value.timestamp >= a.value.timestamp then b
    else a
  }

  lemma MergeLaws(a: Option<Packet>, b: Option<Packet>, c: Option<Packet>)
    ensures Merge(Merge(a, b), c) == Merge(a, Merge(b, c))
    ensures Merge(Merge(a, b), b) == Merge(a, b)
    ensures Merge(Merge(a, b), Merge(b, c)) == Merge(a, Merge(b, c))
  {
  }

  function Held(m: map<string, Packet>, id: string): Option<Packet> {
    if id in m then Some(m[id]) else None
  }

  // The newest packet of a vehicle among those received so far.
  function Newest(log: seq<Packet>, id: string): Option<Packet> {
    if log == [] then None
    else
      var n := |log| - 1;
      if log[n].vehicleID == id then Merge(Newest(log[..n], id), Some(log[n])) else Newest(log[..n], id)
  }

  // Newest is the last to arrive among those of maximal timestamp.
  lemma {:induction false} NewestMeaning(log: seq<Packet>, id: string)
    ensures Newest(log, id).None? <==> forall i :: 0 <= i < |log| ==> log[i].vehicleID != id
    ensures Newest(log, id).Some? ==>
        exists i :: 0 <= i < |log| && LastOfMaximal(log, id, i) && log[i] == Newest(log, id).value
  {
    if log != [] {
      var n := |log| - 1;
      NewestMeaning(log[..n], id);
      assert forall i :: 0 <= i < n ==> log[..n][i] == log[i];
      if log[n].vehicleID == id && Newest(log, id) == Some(log[n]) {
        if Newest(log[..n], id).Some? {
          var k :| 0 <= k < n && LastOfMaximal(log[..n], id, k) && log[..n][k] == Newest(log[..n], id).value;
        }
        assert LastOfMaximal(log, id, n);
      } else if Newest(log[..n], id).Some? {
        var k :| 0 <= k < n && LastOfMaximal(log[..n], id, k) && log[..n][k] == Newest(log[..n], id).value;
        assert LastOfMaximal(log, id, k);
      }
    }
  }

  ghost predicate LastOfMaximal(log: seq<Packet>, id: string, i: nat)
    requires i < |log|
  {
    && log[i].vehicleID == id
    && (forall j :: 0 <= j < |log| && log[j].vehicleID == id ==> log[j].timestamp <= log[i].timestamp)
    && (forall j :: i < j < |log| && log[j].vehicleID == id ==> log[j].timestamp < log[i].timestamp)
  }

  lemma {:induction false} NewestConcat(a: seq<Packet>, b: seq<Packet>, id: string)
    ensures Newest(a + b, id) == Merge(Newest(a, id), Newest(b, id))
  {
    if b == [] {
      assert a + b == a;
    } else {
      var n := |b| - 1;
      NewestConcat(a, b[..n], id);
      assert (a + b)[..|a + b| - 1] == a + b[..n];
      MergeLaws(Newest(a, id), Newest(b[..n], id), Some(b[n]));
    }
  }

  // m is an exact index of the log: each vehicle with its newest packet.
  ghost predicate IsIndex(m: map<string, Packet>, log: seq<Packet>) {
    forall id :: Held(m, id) == Newest(log, id)
  }

  lemma IndexCovers(m: map<string, Packet>, log: seq<Packet>, i: nat)
    requires IsIndex(m, log) && i < |log|
    ensures log[i].vehicleID in m && log[i].timestamp <= m[log[i].vehicleID].timestamp
  {
    var id := log[i].vehicleID;
    NewestMeaning(log, id);
    assert Held(m, id) == Newest(log, id);
  }

  lemma IndexFromLog(m: map<string, Packet>, log: seq<Packet>, id: string)
    requires IsIndex(m, log) && id in m
    ensures m[id] in log && m[id].vehicleID == id
  {
    NewestMeaning(log, id);
    assert Held(m, id) == Newest(log, id);
  }

  // ---- the newest of a subset, in order of arrival ----

  function Only(log: seq<Packet>, keep: set<Packet>): seq<Packet> {
    if log == [] then []
    else
      var n := |log| - 1;
      Only(log[..n], keep) + if log[n] in keep then [log[n]] else []
  }

  lemma {:induction false} OnlyMembers(log: seq<Packet>, keep: set<Packet>)
    ensures forall p :: p in Only(log, keep) <==> p in log && p in keep
  {
    if log != [] {
      OnlyMembers(log[..|log| - 1], keep);
    }
  }

  lemma {:induction false} OnlyConcat(a: seq<Packet>, b: seq<Packet>, keep: set<Packet>)
    ensures Only(a + b, keep) == Only(a, keep) + Only(b, keep)
  {
    if b == [] {
      assert a + b == a;
    } else {
      OnlyConcat(a, b[..|b| - 1], keep);
      assert (a + b)[..|a + b| - 1] == a + b[..|b| - 1];
    }
  }

  lemma {:induction false} OnlyAgrees(log: seq<Packet>, keep: set<Packet>, keep': set<Packet>)
    requires forall p :: p in log ==> (p in keep <==> p in keep')
    ensures Only(log, keep) == Only(log, keep')
  {
    if log != [] {
      OnlyAgrees(log[..|log| - 1], keep, keep');
    }
  }

  lemma {:induction false} OnlyAll(log: seq<Packet>, keep: set<Packet>)
    requires forall p :: p in log ==> p in keep
    ensures Only(log, keep) == log
  {
    if log != [] {
      OnlyAll(log[..|log| - 1], keep);
    }
  }

  lemma {:induction false} OnlyNone(log: seq<Packet>, keep: set<Packet>)
    requires forall p :: p in log ==> p !in keep
    ensures Only(log, keep) == []
  {
    if log != [] {
      OnlyNone(log[..|log| - 1], keep);
    }
  }

  lemma {:induction false} OnlyOther(log: seq<Packet>, keep: set<Packet>, p: Packet, id: string)
    requires p.vehicleID != id
    ensures Newest(Only(log, keep + {p}), id) == Newest(Only(log, keep), id)
  {
    if log != [] {
      var front, x := log[..|log| - 1], log[|log| - 1];
      OnlyOther(front, keep, p, id);
      NewestConcat(Only(front, keep), if x in keep then [x] else [], id);
      NewestConcat(Only(front, keep + {p}), if x in keep + {p} then [x] else [], id);
    }
  }

  lemma NewestOne(p: Packet, id: string)
    ensures Newest([p], id) == if p.vehicleID == id then Some(p) else None
  {
    assert [p][..0] == [];
  }

  // The newest of a subset is no newer than that of the whole, and is it if it is kept.
  lemma {:induction false} NewestKept(log: seq<Packet>, keep: set<Packet>, id: string)
    ensures Newest(Only(log, keep), id).Some? ==>
              Newest(log, id).Some? && Newest(Only(log, keep), id).value.timestamp <= Newest(log, id).value.timestamp
    ensures Newest(log, id).Some? && Newest(log, id).value in keep ==> Newest(Only(log, keep), id) == Newest(log, id)
  {
    if log != [] {
      var front, x := log[..|log| - 1], log[|log| - 1];
      NewestKept(front, keep, id);
      NewestConcat(Only(front, keep), if x in keep then [x] else [], id);
      NewestOne(x, id);
    }
  }

  // a arrived before b.
  ghost predicate Before(log: seq<Packet>, a: Packet, b: Packet) {
    exists i, j :: 0 <= i < j < |log| && log[i] == a && log[j] == b
  }

  ghost predicate DistinctPackets(log: seq<Packet>) {
    forall i, j :: 0 <= i < j < |log| ==> log[i] != log[j]
  }

  // What becomes of the newest when p joins: p takes its place if p is newer, or has the same
  // timestamp and arrived later.
  ghost function Joined(log: seq<Packet>, newest: Option<Packet>, p: Packet): Option<Packet> {
    if newest.Some?
       && (p.timestamp < newest.value.timestamp
           || (p.timestamp == newest.value.timestamp && !Before(log, newest.value, p)))
    then newest else Some(p)
  }

  lemma OnlyNext(front: seq<Packet>, x: Packet, keep: set<Packet>, id: string)
    ensures Newest(Only(front + [x], keep), id) ==
            Merge(Newest(Only(front, keep), id), if x in keep && x.vehicleID == id then Some(x) else None)
  {
    assert (front + [x])[..|front|] == front;
    NewestConcat(Only(front, keep), if x in keep then [x] else [], id);
    NewestOne(x, id);
  }

  ghost predicate JoinsRight(log: seq<Packet>, keep: set<Packet>, p: Packet) {
    Newest(Only(log, keep + {p}), p.vehicleID) == Joined(log, Newest(Only(log, keep), p.vehicleID), p)
  }

  lemma JoinedLast(front: seq<Packet>, keep: set<Packet>, p: Packet)
    requires DistinctPackets(front + [p])
    ensures JoinsRight(front + [p], keep, p)
  {
    var e := Newest(Only(front, keep), p.vehicleID);
    assert (front + [p])[|front|] == p && forall i :: 0 <= i < |front| ==> front[i] == (front + [p])[i];
    assert p !in front;
    OnlyNext(front, p, keep, p.vehicleID);
    OnlyNext(front, p, keep + {p}, p.vehicleID);
    OnlyAgrees(front, keep, keep + {p});
    NewestIsOwn(Only(front, keep), p.vehicleID);
    OnlyMembers(front, keep);
    assert (front + [p])[..|front|] == front;
    hide Only, Newest;
    LastJoins(front + [p], e, p);
  }

  lemma JoinedInFront(front: seq<Packet>, x: Packet, keep: set<Packet>, p: Packet)
    requires DistinctPackets(front + [x]) && p in front && x != p && JoinsRight(front, keep, p)
    ensures JoinsRight(front + [x], keep, p)
  {
    hide Only, Newest, Before, DistinctPackets;
    OnlyNext(front, x, keep, p.vehicleID);
    OnlyNext(front, x, keep + {p}, p.vehicleID);
    BeforeLonger(front, x, p);
    JoinsEarlier(front, front + [x], Newest(Only(front, keep), p.vehicleID),
                 if x in keep && x.vehicleID == p.vehicleID then Some(x) else None, p);
  }

  lemma {:induction false} NewestJoined(log: seq<Packet>, keep: set<Packet>, p: Packet)
    requires p in log && DistinctPackets(log)
    ensures Newest(Only(log, keep + {p}), p.vehicleID) == Joined(log, Newest(Only(log, keep), p.vehicleID), p)
  {
    var front, x := log[..|log| - 1], log[|log| - 1];
    assert log == front + [x];
    if x == p {
      JoinedLast(front, keep, p);
    } else {
      NewestJoined(front, keep, p);
      JoinedInFront(front, x, keep, p);
    }
  }

  lemma LastJoins(log: seq<Packet>, e: Option<Packet>, p: Packet)
    requires log != [] && log[|log| - 1] == p && DistinctPackets(log) && (e.Some? ==> e.value in log[..|log| - 1])
    ensures Joined(log, e, p) == Merge(e, Some(p)) == Joined(log, Merge(e, Some(p)), p)
  {
    LastIsBehind(log, e, p);
  }

  lemma JoinsEarlier(front: seq<Packet>, log: seq<Packet>, e: Option<Packet>, x: Option<Packet>, p: Packet)
    requires x.Some? ==> !Before(log, x.value, p)
    requires forall q :: Before(log, q, p) <==> Before(front, q, p)
    ensures Merge(Joined(front, e, p), x) == Joined(log, Merge(e, x), p)
  {
  }

  // No packet of the newest timestamp arrived after the newest.
  lemma NothingAfterNewest(log: seq<Packet>, id: string, p: Packet)
    requires DistinctPackets(log) && Newest(log, id).Some? && p.vehicleID == id
    requires p.timestamp == Newest(log, id).value.timestamp
    ensures !Before(log, Newest(log, id).value, p)
  {
    NewestMeaning(log, id);
    var k :| 0 <= k < |log| && LastOfMaximal(log, id, k) && log[k] == Newest(log, id).value;
    forall i, j | 0 <= i < j < |log| && log[i] == Newest(log, id).value ensures log[j] != p {
      assert i == k;
    }
  }

  lemma NewestIsOwn(log: seq<Packet>, id: string)
    ensures Newest(log, id).Some? ==> Newest(log, id).value.vehicleID == id && Newest(log, id).value in log
  {
    NewestMeaning(log, id);
  }

  // Everything in front of the last packet arrived before it, and the last before nothing.
  lemma LastIsBehind(log: seq<Packet>, e: Option<Packet>, p: Packet)
    requires log != [] && log[|log| - 1] == p && DistinctPackets(log) && (e.Some? ==> e.value in log[..|log| - 1])
    ensures e.Some? ==> Before(log, e.value, p)
    ensures !Before(log, p, p)
  {
    if e.Some? {
      var i :| 0 <= i < |log| - 1 && log[..|log| - 1][i] == e.value;
      assert log[i] == e.value;
    }
  }

  lemma BeforeLonger(front: seq<Packet>, x: Packet, p: Packet)
    requires DistinctPackets(front + [x]) && p in front
    ensures !Before(front + [x], x, p)
    ensures forall e :: Before(front + [x], e, p) <==> Before(front, e, p)
  {
    var log := front + [x];
    var k :| 0 <= k < |front| && front[k] == p;
    assert log[k] == p && log[|front|] == x;
    forall e ensures Before(log, e, p) <==> Before(front, e, p) {
      if Before(front, e, p) {
        var i, j :| 0 <= i < j < |front| && front[i] == e && front[j] == p;
        assert log[i] == e && log[j] == p;
      }
      if Before(log, e, p) {
        var i, j :| 0 <= i < j < |log| && log[i] == e && log[j] == p;
        assert j == k;
        assert front[i] == e && front[j] == p;
      }
    }
  }
}
