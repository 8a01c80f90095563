// Telemetry packets, the upsert that buildUpsert generates for one, and what MongoDB makes
// of that upsert.
module Packets {
  import opened Basics

  // JSON values, as far as the upsert looks at them.
  datatype Value = Num(n: real) | Null | Text(s: string) | Other(json: string)

  // Field names: the three that the code treats specially, and any other.
  datatype Field = VehicleID | ObjectID | Timestamp | Named(name: string)

  // A received packet. `delivery` is the identity of the object in memory and of the queue
  // message it came from; it is not one of the packet's fields and is never written.
  // `rest` holds the fields other than vehicleID and timestamp.
  datatype Packet = Packet(delivery: nat, vehicleID: string, timestamp: real, rest: map<Field, Value>)

  type Doc = map<Field, Value>

  // Number.MIN_SAFE_INTEGER
  const MIN_SAFE: real := -9007199254740991.0

  // The packet as the object that JSON.parse returned.
  function Object(p: Packet): Doc {
    p.rest[VehicleID := Text(p.vehicleID)][Timestamp := Num(p.timestamp)]
  }

  function StateFields(p: Packet): set<Field> {
    Object(p).Keys - {VehicleID, ObjectID}
  }

  // ---- the generated upsert ----

  // { $cond: [{ $gte: [ts, { $ifNull: ["$timestamp", MIN_SAFE] }] }, value, "$" + field] },
  // or a plain value.
  datatype Expr = Plain(value: Value) | IfNewer(ts: real, value: Value, field: Field)

  datatype Upsert = Upsert(vehicleID: string, assign: map<Field, Expr>)

  function Guarded(p: Packet, fields: set<Field>): map<Field, Expr>
    requires fields <= Object(p).Keys
  {
    map k | k in fields :: IfNewer(p.timestamp, Object(p)[k], k)
  }

  // The pipeline stage as it is while the given fields are still to come.
  function AssignBut(p: Packet, todo: set<Field>): map<Field, Expr> {
    map[VehicleID := Plain(Text(p.vehicleID))] + Guarded(p, StateFields(p) - todo)
  }

  function UpsertOf(p: Packet): Upsert {
    Upsert(p.vehicleID, AssignBut(p, {}))
  }

  lemma AssignNext(p: Packet, todo: set<Field>, field: Field)
    requires todo <= StateFields(p) && field in todo
    ensures field in Object(p)
    ensures AssignBut(p, todo - {field}) == AssignBut(p, todo)[field := IfNewer(p.timestamp, Object(p)[field], field)]
  {
  }

  method BuildUpsert(p: Packet) returns (op: Upsert)
    ensures op == UpsertOf(p)
  {
    var assign := map[VehicleID := Plain(Text(p.vehicleID))];
    var pkt := Object(p);
    var todo := StateFields(p);
    assert assign == AssignBut(p, todo);
    hide Object, AssignBut, StateFields;
    while todo != {}
      invariant todo <= StateFields(p) && assign == AssignBut(p, todo)
      decreases |todo|
    {
      var field :| field in todo;
      AssignNext(p, todo, field);
      assign := assign[field := IfNewer(p.timestamp, pkt[field], field)];
      todo := todo - {field};
    }
    return Upsert(p.vehicleID, assign);
  }

  // ---- what MongoDB does with it ----

  // $gte against the stored timestamp; in the BSON order text and documents lie above numbers.
  predicate Newer(ts: real, doc: Doc) {
    var stored := if Timestamp in doc && doc[Timestamp] != Null then doc[Timestamp] else Num(MIN_SAFE);
    stored.Num? && ts >= stored.n
  }

  function EvalExpr(e: Expr, doc: Doc): Option<Value> {
    match e
    case Plain(v) => Some(v)
    case IfNewer(ts, v, field) =>
      if Newer(ts, doc) then Some(v) else if field in doc then Some(doc[field]) else None
  }

  // One $set stage: every expression reads the document as it was before the stage, and a
  // missing value leaves its field missing.
  function RunSet(assign: map<Field, Expr>, doc: Doc): Doc {
    map k | k in doc.Keys + assign.Keys && (k in assign ==> EvalExpr(assign[k], doc).Some?) ::
      if k in assign then EvalExpr(assign[k], doc).value else doc[k]
  }

  // The document the upsert starts from: the stored one, or one made from the filter.
  function Start(docs: map<string, Doc>, id: string): Doc {
    if id in docs then docs[id] else map[VehicleID := Text(id)]
  }

  function RunUpsert(docs: map<string, Doc>, op: Upsert): map<string, Doc> {
    docs[op.vehicleID := RunSet(op.assign, Start(docs, op.vehicleID))]
  }

  // The document a packet describes.
  function DocOf(p: Packet): Doc {
    (map k | k in StateFields(p) :: Object(p)[k])[VehicleID := Text(p.vehicleID)]
  }

  function Applied(doc: Doc, p: Packet): Doc {
    if Newer(p.timestamp, doc) then doc + DocOf(p) else doc[VehicleID := Text(p.vehicleID)]
  }

  // An upsert writes all of its packet or none of it: no document is left half updated.
  lemma UpsertIsAllOrNothing(doc: Doc, p: Packet)
    ensures RunSet(UpsertOf(p).assign, doc) == Applied(doc, p)
  {
    UpsertAssigns(p);
    var assign := UpsertOf(p).assign;
    var result := RunSet(assign, doc);
    hide Object, UpsertOf, Guarded, Newer;
    assert forall k :: k in result <==> k in Applied(doc, p);
    assert forall k :: k in result ==> result[k] == Applied(doc, p)[k];
  }

  lemma UpsertAssigns(p: Packet)
    ensures UpsertOf(p).assign.Keys == DocOf(p).Keys == StateFields(p) + {VehicleID}
    ensures UpsertOf(p).assign[VehicleID] == Plain(Text(p.vehicleID)) && DocOf(p)[VehicleID] == Text(p.vehicleID)
    ensures forall k :: k in StateFields(p) ==> UpsertOf(p).assign[k] == IfNewer(p.timestamp, DocOf(p)[k], k)
  {
  }

  // The guard, by what the stored document has for a timestamp: nothing or null counts as
  // Number.MIN_SAFE_INTEGER, and what is no number is never older.
  lemma GuardMeans(ts: real, doc: Doc)
    ensures Timestamp !in doc || doc[Timestamp] == Null ==> (Newer(ts, doc) <==> ts >= -9007199254740991.0)
    ensures Timestamp in doc && doc[Timestamp].Num? ==> (Newer(ts, doc) <==> ts >= doc[Timestamp].n)
    ensures Timestamp in doc && (doc[Timestamp].Text? || doc[Timestamp].Other?) ==> !Newer(ts, doc)
  {
  }

  // The fields of a packet's document: its own, but for _id, with its vehicle and timestamp.
  lemma DocumentFields(p: Packet)
    ensures DocOf(p).Keys == p.rest.Keys - {ObjectID} + {VehicleID, Timestamp}
    ensures DocOf(p)[VehicleID] == Text(p.vehicleID) && DocOf(p)[Timestamp] == Num(p.timestamp)
    ensures forall k :: k in p.rest && k !in {VehicleID, ObjectID, Timestamp} ==> DocOf(p)[k] == p.rest[k]
  {
  }

  // An accepted packet is stored with every field it has, and no other field of the document
  // changes; a rejected one changes nothing.
  lemma UpsertStoresEveryField(docs: map<string, Doc>, p: Packet)
    ensures p.vehicleID in RunUpsert(docs, UpsertOf(p))
    ensures var before, after := Start(docs, p.vehicleID), RunUpsert(docs, UpsertOf(p))[p.vehicleID];
            if Newer(p.timestamp, before) then
              && after.Keys == before.Keys + (p.rest.Keys - {ObjectID}) + {VehicleID, Timestamp}
              && after[VehicleID] == Text(p.vehicleID) && after[Timestamp] == Num(p.timestamp)
              && (forall k :: k in p.rest && k !in {VehicleID, ObjectID, Timestamp} ==> after[k] == p.rest[k])
              && (forall k :: k in before && (k !in p.rest || k == ObjectID) && k !in {VehicleID, Timestamp} ==>
                    after[k] == before[k])
            else after == before[VehicleID := Text(p.vehicleID)]
    ensures forall id :: id != p.vehicleID ==> Same(RunUpsert(docs, UpsertOf(p)), docs, id)
  {
    UpsertIsAllOrNothing(Start(docs, p.vehicleID), p);
    AppliedFields(Start(docs, p.vehicleID), p);
    hide RunSet, AssignBut, DocOf, StateFields, Newer, Start, Applied;
  }

  lemma AppliedFields(before: Doc, p: Packet)
    ensures var after := Applied(before, p);
            if Newer(p.timestamp, before) then
              && after.Keys == before.Keys + (p.rest.Keys - {ObjectID}) + {VehicleID, Timestamp}
              && after[VehicleID] == Text(p.vehicleID) && after[Timestamp] == Num(p.timestamp)
              && (forall k :: k in p.rest && k !in {VehicleID, ObjectID, Timestamp} ==> after[k] == p.rest[k])
              && (forall k :: k in before && (k !in p.rest || k == ObjectID) && k !in {VehicleID, Timestamp} ==>
                    after[k] == before[k])
            else after == before[VehicleID := Text(p.vehicleID)]
  {
    DocumentFields(p);
    hide DocOf, StateFields, Object, Newer;
    assert (before + DocOf(p)).Keys == before.Keys + DocOf(p).Keys;
  }

  // Over a packet of the same vehicle with the same fields, the newer packet replaces the
  // document whole, and an older one leaves it as it was.
  lemma AppliedOver(q: Packet, p: Packet)
    requires q.vehicleID == p.vehicleID && StateFields(q) == StateFields(p)
    ensures Applied(DocOf(q), p) == if p.timestamp >= q.timestamp then DocOf(p) else DocOf(q)
  {
    assert DocOf(q)[Timestamp] == Num(q.timestamp);
    assert DocOf(q).Keys == DocOf(p).Keys;
    var keep := DocOf(q)[VehicleID := Text(p.vehicleID)];
    assert keep == DocOf(q);
    assert DocOf(q) + DocOf(p) == DocOf(p);
  }

  // When the packet is accepted, the stored document is exactly the packet's if and only if
  // it held no field that the packet lacks.
  lemma AcceptedExactly(doc: Doc, p: Packet)
    requires Newer(p.timestamp, doc)
    ensures RunSet(UpsertOf(p).assign, doc) == DocOf(p) <==> doc.Keys <= DocOf(p).Keys
  {
    UpsertIsAllOrNothing(doc, p);
    assert (doc + DocOf(p)).Keys == doc.Keys + DocOf(p).Keys;
    if doc.Keys <= DocOf(p).Keys {
      assert doc + DocOf(p) == DocOf(p);
    }
  }

  // The first packet of a vehicle is stored if and only if its timestamp is at least
  // MIN_SAFE: below that the guard rejects it and leaves a document with no timestamp.
  lemma FirstPacketStored(docs: map<string, Doc>, p: Packet)
    requires p.vehicleID !in docs
    ensures RunUpsert(docs, UpsertOf(p))[p.vehicleID] == DocOf(p) <==> p.timestamp >= MIN_SAFE
    ensures p.timestamp < MIN_SAFE ==> Timestamp !in RunUpsert(docs, UpsertOf(p))[p.vehicleID]
  {
    var doc := Start(docs, p.vehicleID);
    UpsertIsAllOrNothing(doc, p);
    assert Timestamp in DocOf(p);
    assert doc + DocOf(p) == DocOf(p);
  }

  // Writing a packet again changes nothing: a retried batch is harmless.
  lemma UpsertIdempotent(docs: map<string, Doc>, p: Packet)
    ensures RunUpsert(RunUpsert(docs, UpsertOf(p)), UpsertOf(p)) == RunUpsert(docs, UpsertOf(p))
  {
    var doc := Start(docs, p.vehicleID);
    UpsertIsAllOrNothing(doc, p);
    UpsertIsAllOrNothing(Applied(doc, p), p);
    AppliedTwice(doc, p);
  }

  lemma AppliedTwice(doc: Doc, p: Packet)
    ensures Applied(Applied(doc, p), p) == Applied(doc, p)
  {
    if Newer(p.timestamp, doc) {
      assert DocOf(p)[Timestamp] == Num(p.timestamp);
      assert doc + DocOf(p) + DocOf(p) == doc + DocOf(p);
    } else {
      var kept := doc[VehicleID := Text(p.vehicleID)];
      assert kept[VehicleID := Text(p.vehicleID)] == kept;
      assert Timestamp in kept <==> Timestamp in doc;
    }
  }

  // ---- a whole batch ----

  function RunAll(docs: map<string, Doc>, ops: seq<Upsert>): map<string, Doc> {
    if ops == [] then docs else RunUpsert(RunAll(docs, ops[..|ops| - 1]), ops[|ops| - 1])
  }

  ghost predicate OnePerVehicle(ops: seq<Upsert>) {
    forall i, j :: 0 <= i < j < |ops| ==> ops[i].vehicleID != ops[j].vehicleID
  }

  // With one operation per vehicle each vehicle's document is its own operation's doing.
  lemma {:induction false} EachItsOwn(docs: map<string, Doc>, ops: seq<Upsert>, id: string)
    requires OnePerVehicle(ops)
    ensures forall i :: 0 <= i < |ops| && ops[i].vehicleID == id ==>
      id in RunAll(docs, ops) && RunAll(docs, ops)[id] == RunSet(ops[i].assign, Start(docs, id))
    ensures (forall i :: 0 <= i < |ops| ==> ops[i].vehicleID != id) ==>
      Same(RunAll(docs, ops), docs, id)
  {
    if ops != [] {
      var n := |ops| - 1;
      EachItsOwn(docs, ops[..n], id);
      assert forall i :: 0 <= i < n ==> ops[..n][i] == ops[i];
    }
  }

  // Unordered execution: the same operations in any other order leave the same documents.
  lemma BulkOrderIrrelevant(docs: map<string, Doc>, ops: seq<Upsert>, other: seq<Upsert>)
    requires OnePerVehicle(ops) && OnePerVehicle(other) && forall op :: op in ops <==> op in other
    ensures RunAll(docs, ops) == RunAll(docs, other)
  {
    forall id ensures Same(RunAll(docs, ops), RunAll(docs, other), id) {
      EachItsOwn(docs, ops, id);
      EachItsOwn(docs, other, id);
      hide RunAll, RunSet, Start;
      if i :| 0 <= i < |ops| && ops[i].vehicleID == id {
        assert ops[i] in other;
      } else {
        assert forall j :: 0 <= j < |other| ==> other[j] in ops;
      }
    }
    SameEverywhere(RunAll(docs, ops), RunAll(docs, other));
  }

  ghost predicate Same(a: map<string, Doc>, b: map<string, Doc>, id: string) {
    (id in a <==> id in b) && (id in a && id in b ==> a[id] == b[id])
  }

  lemma SameEverywhere(a: map<string, Doc>, b: map<string, Doc>)
    requires forall id :: Same(a, b, id)
    ensures a == b
  {
    assert forall id :: Same(a, b, id) ==> (id in a <==> id in b);
  }
}
