/** Whole runs of the broker manager: any messages, any database errors. */
module Runs {
  import opened Wrappers
  import opened Probe
  import opened JoinId
  import opened Tables
  import opened Queries
  import opened Requests
  import opened Batch
  import opened Topics
  import opened World

  ghost predicate IsRun(ws: seq<World>, ms: seq<Message>, ts: seq<Trace>) {
    && |ws| == |ms| + 1 == |ts| + 1
    && forall i :: 0 <= i < |ms| ==> MessageEffect(ms[i], ws[i], ts[i], ws[i + 1])
  }

  // ---------- acknowledgements ----------

  /** The topic a message is answered on, if it is a request. */
  function AckTopicOf(m: Message): seq<string> {
    match Request(m)
    case None => []
    case Some((kind, tempID, _)) => [AckTopic(kind, tempID)]
  }

  /** The topics the requests among the messages are answered on. */
  function AckTopics(ms: seq<Message>): seq<string> {
    if ms == [] then [] else AckTopics(ms[..|ms| - 1]) + AckTopicOf(ms[|ms| - 1])
  }

  function TopicsOf(acks: seq<Ack>): seq<string> {
    seq(|acks|, i requires 0 <= i < |acks| => acks[i].topic)
  }

  lemma {:induction false} OneAck(m: Message, w: World, t: Trace, w': World)
    requires MessageEffect(m, w, t, w')
    ensures TopicsOf(w'.acks) == TopicsOf(w.acks) + AckTopicOf(m)
  {
  }

  /** Acknowledgements are conserved: whatever fails on the way, every request is answered exactly
      once, on its own topic and in the order of the requests, and nothing else is published. */
  lemma {:induction false} AcksConserved(ws: seq<World>, ms: seq<Message>, ts: seq<Trace>, n: nat)
    requires IsRun(ws, ms, ts) && n <= |ms|
    ensures TopicsOf(ws[n].acks) == TopicsOf(ws[0].acks) + AckTopics(ms[..n])
  {
    if n > 0 {
      AcksConserved(ws, ms, ts, n - 1);
      OneAck(ms[n - 1], ws[n - 1], ts[n - 1], ws[n]);
      OneMoreTopic(TopicsOf(ws[0].acks), ms, n);
    } else {
      assert TopicsOf(ws[0].acks) + [] == TopicsOf(ws[0].acks);
    }
  }

  lemma {:induction false} OneMoreTopic(first: seq<string>, ms: seq<Message>, n: nat)
    requires 0 < n <= |ms|
    ensures first + AckTopics(ms[..n - 1]) + AckTopicOf(ms[n - 1]) == first + AckTopics(ms[..n])
  {
    assert ms[..n][..n - 1] == ms[..n - 1];
  }

  // ---------- success ----------

  /** The neighbors have FlexIDs that are pairwise different and not in the Neighbor table. */
  ghost predicate NeighborsNew(p: Payload, db: Db)
    requires NeighborsOk(p)
  {
    && (forall n :: n in p.neighbors.value ==> n.neighborFlexID.value !in NeighborIds(db))
    && (forall i, j :: 0 <= i < j < |p.neighbors.value| ==>
          p.neighbors.value[i].neighborFlexID != p.neighbors.value[j].neighborFlexID)
  }

  lemma {:induction false} OneRowPerId(db: Db, rows: seq<DeviceRow>, id: string)
    requires forall r :: r in rows ==> r.deviceId == id
    ensures DevicesAllowed(db, rows) <==> rows == [] || (|rows| == 1 && id !in DeviceIds(db))
  {
    if rows != [] { assert rows[0] in rows; }
    if |rows| >= 2 { assert rows[0].deviceId == rows[1].deviceId by { assert rows[1] in rows; } }
  }

  /** One row per interface, all under one id: the primary key lets at most one in. */
  lemma {:induction false} InterfacesAllowedIff(db: Db, id: string, p: Payload, o: Outcome)
    requires CodesOk(p)
    ensures var rows := Inserted(DeviceRows(id, p), o);
            Allowed(db, InsertDevice(DeviceRows(id, p)), o) <==> rows == [] || (|rows| == 1 && id !in DeviceIds(db))
  {
    var rows := Inserted(DeviceRows(id, p), o);
    forall r | r in rows ensures r.deviceId == id {
      assert r in DeviceRows(id, p);
    }
    OneRowPerId(db, rows, id);
  }

  lemma {:induction false} NeighborRowsApart(id: string, p: Payload)
    requires NeighborsOk(p)
    ensures var rows, list := NeighborRows(id, p), p.neighbors.value;
            forall i :: 0 <= i < |list| ==>
              rows[i].deviceId == id && Some(rows[i].neighborId) == list[i].neighborFlexID
              && rows[i] in rows && list[i] in list
  {
  }

  lemma {:induction false} NeighborsAllowedIff(db: Db, id: string, p: Payload)
    requires NeighborsOk(p)
    ensures SchemaAllows(db, InsertNeighbor(NeighborRows(id, p)))
            <==> (p.neighbors.value == [] || id in DeviceIds(db)) && NeighborsNew(p, db)
  {
    var rows, list := NeighborRows(id, p), p.neighbors.value;
    NeighborRowsApart(id, p);
    if (list == [] || id in DeviceIds(db)) && NeighborsNew(p, db) {
      forall r | r in rows ensures r.deviceId in DeviceIds(db) && r.neighborId !in NeighborIds(db) {
        var i :| 0 <= i < |rows| && rows[i] == r;
        assert list[i] in list;
      }
    }
    if NeighborsAllowed(db, rows) {
      assert list == [] || rows[0] in rows;
      forall n | n in list ensures n.neighborFlexID.value !in NeighborIds(db) {
        var i :| 0 <= i < |list| && list[i] == n;
        assert rows[i] in rows;
      }
    }
  }

  lemma {:induction false} FirstInsertIff(w: World, tempID: string, p: Payload, t: Trace)
    requires JoinLegal(w, tempID, p, t) && Served(JoinRequest, w, tempID, p, t)
    requires Requester(tempID, p.relay).Some? && CodesOk(p)
    ensures t.o1.Done? <==> |p.uniqueCodes.value| <= 1
  {
    var id := Candidate(BaseFirst, Requester(tempID, p.relay).value, 0, t.probes);
    InterfacesAllowedIff(w.db, id, p, Done);
    AllowedOutcomes(w.db, JoinInsert(tempID, p, t));
  }

  lemma {:induction false} SecondInsertIff(w: World, tempID: string, p: Payload, t: Trace)
    requires JoinLegal(w, tempID, p, t) && Served(JoinRequest, w, tempID, p, t)
    requires Requester(tempID, p.relay).Some? && CodesOk(p) && t.o1.Done? && NeighborsOk(p)
    ensures t.o2.Done? <==> NeighborsNew(p, w.db) && (p.neighbors.value == [] || p.uniqueCodes.value != [])
  {
    var id := Candidate(BaseFirst, Requester(tempID, p.relay).value, 0, t.probes);
    var db := AfterJoinInsert(w.db, tempID, p, t);
    AllowedOutcomes(db, NeighborInsert(tempID, p, t));
    NeighborsAllowedIff(db, id, p);
    DeviceIdsAfter(w.db, JoinInsert(tempID, p, t), Done);
    assert id in DeviceIds(db) <==> p.uniqueCodes.value != [] by {
      if p.uniqueCodes.value != [] { assert DeviceRows(id, p)[0] in DeviceRows(id, p); }
    }
    assert db.neighbor == w.db.neighbor;
  }

  /** A join that the database serves succeeds if and only if the request is complete, lists at most
      one interface, and its neighbors are new and, unless there are none, have a device to belong to. */
  lemma {:induction false} JoinSucceedsIff(w: World, tempID: string, p: Payload, t: Trace, w': World)
    requires Effect(JoinRequest, w, tempID, p, t, w') && Served(JoinRequest, w, tempID, p, t)
    ensures Succeeded(w'.acks[|w'.acks| - 1].body) <==>
              && p.relay !in {NoRelay, Text(""), Hops([])}
              && p.uniqueCodes.Some? && |p.uniqueCodes.value| <= 1
              && (forall c :: c in p.uniqueCodes.value ==> c.hwAddress.Some?)
              && p.neighbors.Some? && (p.neighbors.value == [] || |p.uniqueCodes.value| == 1)
              && (forall n :: n in p.neighbors.value ==>
                    n.neighborFlexID.Some? && n.neighborFlexID.value != "none"
                    && n.neighborFlexID.value !in NeighborIds(w.db))
              && (forall i, j :: 0 <= i < j < |p.neighbors.value| ==>
                    p.neighbors.value[i].neighborFlexID != p.neighbors.value[j].neighborFlexID)
  {
    AboutNobodyIff(tempID, p.relay);
    if Requester(tempID, p.relay).Some? && CodesOk(p) {
      FirstInsertIff(w, tempID, p, t);
      if t.o1.Done? && NeighborsOk(p) { SecondInsertIff(w, tempID, p, t); }
    }
  }

  /** A join of two or more interfaces is always refused, although its first row may be in Device. */
  lemma {:induction false} TwoInterfacesNeverJoin(w: World, tempID: string, p: Payload, t: Trace, w': World)
    requires Effect(JoinRequest, w, tempID, p, t, w') && p.uniqueCodes.Some? && |p.uniqueCodes.value| >= 2
    ensures !Succeeded(w'.acks[|w'.acks| - 1].body)
    ensures |w'.db.device| <= |w.db.device| + 1
  {
    if Requester(tempID, p.relay).Some? && CodesOk(p) {
      var id := Candidate(BaseFirst, Requester(tempID, p.relay).value, 0, t.probes);
      InterfacesAllowedIff(w.db, id, p, t.o1);
    }
  }

  ghost predicate CanRegister(w: World, d: string, p: Payload, b: Built) {
    && (d in w.devices || d in DeviceIds(w.db))
    && p.registerList.Some?
    && (forall item :: item in p.registerList.value ==>
          && item.index.Some? && item.hash.Some? && item.attributes.Some? && |item.attributes.value| <= 3)
    && (p.registerList.value == [] || d in DeviceIds(w.db))
    && IdsNew(d, b, w.db)
  }

  /** A registration that the database serves succeeds if and only if the request is complete, no item
      has more attributes than there are columns, the device is known and, unless there are no items,
      in the table, and the generated identifiers are pairwise different and not registered for it.
      Request and table determine the identifiers (`Batch.BatchUnique`). */
  lemma {:induction false} RegisterSucceedsIff(w: World, tempID: string, p: Payload, t: Trace, w': World)
    requires Effect(RegisterRequest, w, tempID, p, t, w') && Served(RegisterRequest, w, tempID, p, t)
    ensures Succeeded(w'.acks[|w'.acks| - 1].body) <==>
              exists d :: About(tempID, p.relay, d) && CanRegister(w, d, p, t.batch)
  {
    var d := Requester(tempID, p.relay);
    forall e ensures d == Some(e) <==> About(tempID, p.relay, e) {
      RequesterIff(tempID, p.relay, e);
    }
    if d.Some? && DeviceOk(w, d.value, t.check) && ItemsOk(p) {
      BatchAllowedIff(BaseFirst, Running, d.value, p.registerList.value, w.db, t.batch);
      AllowedOutcomes(w.db, InsertRegister(t.batch.rows));
    }
  }

  /** The other requests change no key: with a database that answers they succeed if and only if they
      are complete and about a known device, and an update sets no more attributes than there are
      columns. */
  lemma {:induction false} OthersSucceedIff(kind: Kind, w: World, tempID: string, p: Payload, t: Trace, w': World)
    requires Effect(kind, w, tempID, p, t, w') && Served(kind, w, tempID, p, t)
    requires !kind.JoinRequest? && !kind.RegisterRequest?
    ensures Succeeded(w'.acks[|w'.acks| - 1].body) <==>
              exists d :: About(tempID, p.relay, d) && CanBeServed(kind, w, d, p, t)
  {
    ServedFor(kind, w, tempID, p, t, w');
    forall e ensures Requester(tempID, p.relay) == Some(e) <==> About(tempID, p.relay, e) {
      RequesterIff(tempID, p.relay, e);
    }
  }

  lemma {:induction false} ServedFor(kind: Kind, w: World, tempID: string, p: Payload, t: Trace, w': World)
    requires Effect(kind, w, tempID, p, t, w') && Served(kind, w, tempID, p, t)
    requires !kind.JoinRequest? && !kind.RegisterRequest?
    ensures var d := Requester(tempID, p.relay);
            Succeeded(w'.acks[|w'.acks| - 1].body) <==> d.Some? && CanBeServed(kind, w, d.value, p, t)
  {
    if kind.UpdateRequest? && p.attributes.Some? { ColumnsExistIff(p.attributes.value); }
  }

  ghost predicate CanBeServed(kind: Kind, w: World, d: string, p: Payload, t: Trace) {
    match kind
    case LeaveRequest => d in w.devices
    case UpdateRequest =>
      && (d in w.devices || d in DeviceIds(w.db))
      && t.UpdateTrace? && Truthy(t.answer)
      && (p.deregister || (p.attributes.Some? && |p.attributes.value| <= 3))
    case _ => (d in w.devices || d in DeviceIds(w.db)) && p.qosRequirements.Some?
  }

  // ---------- the keys ----------

  /** The keys hold in every reachable state of every run. */
  lemma {:induction false} KeysAlwaysHold(ws: seq<World>, ms: seq<Message>, ts: seq<Trace>, n: nat)
    requires IsRun(ws, ms, ts) && n <= |ms| && KeysHold(ws[0].db)
    ensures KeysHold(ws[n].db)
  {
    if n > 0 {
      KeysAlwaysHold(ws, ms, ts, n - 1);
      MessageKeepsKeys(ms[n - 1], ws[n - 1], ts[n - 1], ws[n]);
    }
  }

  lemma {:induction false} MessageKeepsKeys(m: Message, w: World, t: Trace, w': World)
    requires KeysHold(w.db) && MessageEffect(m, w, t, w')
    ensures KeysHold(w'.db)
  {
    if Request(m).Some? {
      var (kind, tempID, p) := Request(m).value;
      match kind {
        case JoinRequest => JoinKeepsKeys(w, tempID, p, t, w');
        case LeaveRequest =>
          if Requester(tempID, p.relay).Some? {
            ServeKeepsKeys(w.db, DeleteDevice(Requester(tempID, p.relay).value), t.o);
          }
        case RegisterRequest => ServeKeepsKeysIf(w.db, InsertRegister(t.batch.rows), t.o, w'.db);
        case UpdateRequest => UpdateKeepsKeys(w, tempID, p, t, w');
        case QueryRequest =>
      }
    }
  }

  lemma {:induction false} ServeKeepsKeysIf(db: Db, q: Query, o: Outcome, db': Db)
    requires KeysHold(db) && (db' == db || (Allowed(db, q, o) && db' == Serve(db, q, o).0))
    ensures KeysHold(db')
  {
    if db' != db { ServeKeepsKeys(db, q, o); }
  }

  lemma {:induction false} JoinKeepsKeys(w: World, tempID: string, p: Payload, t: Trace, w': World)
    requires KeysHold(w.db) && Effect(JoinRequest, w, tempID, p, t, w')
    ensures KeysHold(w'.db)
  {
    if Requester(tempID, p.relay).Some? && CodesOk(p) {
      ServeKeepsKeys(w.db, JoinInsert(tempID, p, t), t.o1);
      if t.o1.Done? && NeighborsOk(p) {
        ServeKeepsKeys(AfterJoinInsert(w.db, tempID, p, t), NeighborInsert(tempID, p, t), t.o2);
      }
    }
  }

  lemma {:induction false} UpdateKeepsKeys(w: World, tempID: string, p: Payload, t: Trace, w': World)
    requires KeysHold(w.db) && Effect(UpdateRequest, w, tempID, p, t, w')
    ensures KeysHold(w'.db)
  {
    if w'.db != w.db { ServeKeepsKeys(w.db, UpdateQuery(p), t.o); }
  }

  // ---------- cache and database ----------

  /** The id a join obtained but for which its request put no row into Device. */
  ghost function Orphans(m: Message, t: Trace, w': World): set<string> {
    match Request(m)
    case Some((JoinRequest, tempID, p)) =>
      if Requester(tempID, p.relay).Some? && t.JoinTrace?
      then {Candidate(BaseFirst, Requester(tempID, p.relay).value, 0, t.probes)} - DeviceIds(w'.db)
      else {}
    case _ => {}
  }

  ghost function AllOrphans(ws: seq<World>, ms: seq<Message>, ts: seq<Trace>, n: nat): set<string>
    requires |ws| == |ms| + 1 == |ts| + 1 && n <= |ms|
  {
    if n == 0 then {} else AllOrphans(ws, ms, ts, n - 1) + Orphans(ms[n - 1], ts[n - 1], ws[n])
  }

  ghost predicate CacheAgrees(w: World, orphans: set<string>) {
    w.devices.Keys <= DeviceIds(w.db) + orphans
  }

  lemma {:induction false} JoinAgrees(w: World, tempID: string, p: Payload, t: Trace, w': World, orphans: set<string>)
    requires CacheAgrees(w, orphans) && Effect(JoinRequest, w, tempID, p, t, w') && Requester(tempID, p.relay).Some?
    ensures var id := Candidate(BaseFirst, Requester(tempID, p.relay).value, 0, t.probes);
            CacheAgrees(w', orphans + ({id} - DeviceIds(w'.db)))
  {
    var base := Requester(tempID, p.relay).value;
    var id := Candidate(BaseFirst, base, 0, t.probes);
    assert w'.devices == Marked(w.devices, Tried(BaseFirst, base, 0, t.probes));
    JoinOnlyAddsDevices(w, tempID, p, t, w');
    forall d | d in w'.devices ensures d in DeviceIds(w'.db) + orphans + ({id} - DeviceIds(w'.db)) {
      if d !in w.devices && d != id {
        var j: nat :| j < t.probes + 1 && d == Candidate(BaseFirst, base, 0, j);
        assert d in w.devices.Keys + DeviceIds(w.db);
      }
    }
  }

  /** A join adds rows for its own id to Device, none for others, and takes none away. */
  lemma {:induction false} JoinOnlyAddsDevices(w: World, tempID: string, p: Payload, t: Trace, w': World)
    requires Effect(JoinRequest, w, tempID, p, t, w') && Requester(tempID, p.relay).Some?
    ensures DeviceIds(w.db) <= DeviceIds(w'.db)
    ensures DeviceIds(w'.db) <= DeviceIds(w.db) + {Candidate(BaseFirst, Requester(tempID, p.relay).value, 0, t.probes)}
    ensures w'.db.registerList == w.db.registerList
  {
    if CodesOk(p) {
      var id := Candidate(BaseFirst, Requester(tempID, p.relay).value, 0, t.probes);
      DeviceIdsAfter(w.db, InsertDevice(DeviceRows(id, p)), t.o1);
    }
  }

  lemma {:induction false} LeaveAgrees(w: World, tempID: string, p: Payload, t: Trace, w': World, orphans: set<string>)
    requires CacheAgrees(w, orphans) && Effect(LeaveRequest, w, tempID, p, t, w')
    ensures CacheAgrees(w', orphans)
  {
    var d := Requester(tempID, p.relay);
    if d.Some? {
      DeviceIdsAfter(w.db, DeleteDevice(d.value), t.o);
    }
  }

  lemma {:induction false} CheckAgrees(w: World, d: string, o: Outcome, orphans: set<string>)
    requires CacheAgrees(w, orphans)
    ensures CacheAgrees(Checked(w, d, o), orphans)
  {
  }

  /** The other requests do not change the Device table and cache at most a device they found. */
  lemma {:induction false} OthersKeepDevices(kind: Kind, w: World, tempID: string, p: Payload, t: Trace, w': World)
    requires Effect(kind, w, tempID, p, t, w') && !kind.JoinRequest? && !kind.LeaveRequest?
    ensures w'.db.device == w.db.device
    ensures w'.devices == w.devices
            || (Requester(tempID, p.relay).Some? && Requester(tempID, p.relay).value in DeviceIds(w.db)
                && w'.devices == w.devices[Requester(tempID, p.relay).value := Confirmed])
  {
  }

  lemma {:induction false} OthersAgree(kind: Kind, w: World, tempID: string, p: Payload, t: Trace, w': World,
                                       orphans: set<string>)
    requires CacheAgrees(w, orphans) && Effect(kind, w, tempID, p, t, w') && !kind.JoinRequest? && !kind.LeaveRequest?
    ensures CacheAgrees(w', orphans)
  {
    OthersKeepDevices(kind, w, tempID, p, t, w');
    assert DeviceIds(w'.db) == DeviceIds(w.db);
  }

  lemma {:induction false} MessageAgrees(m: Message, w: World, t: Trace, w': World, orphans: set<string>)
    requires CacheAgrees(w, orphans) && MessageEffect(m, w, t, w')
    ensures CacheAgrees(w', orphans + Orphans(m, t, w'))
  {
    if Request(m).Some? {
      var (kind, tempID, p) := Request(m).value;
      match kind {
        case JoinRequest => if Requester(tempID, p.relay).Some? { JoinAgrees(w, tempID, p, t, w', orphans); }
        case LeaveRequest => LeaveAgrees(w, tempID, p, t, w', orphans);
        case _ => OthersAgree(kind, w, tempID, p, t, w', orphans);
      }
    }
  }

  /** Cache and database agree after every request of every run: a key of `deviceID_cache` is a
      Device row, or an id whose join put no row there. */
  lemma {:induction false} CacheAlwaysAgrees(ws: seq<World>, ms: seq<Message>, ts: seq<Trace>, n: nat)
    requires IsRun(ws, ms, ts) && n <= |ms| && ws[0].devices == map[]
    ensures CacheAgrees(ws[n], AllOrphans(ws, ms, ts, n))
  {
    if n > 0 {
      CacheAlwaysAgrees(ws, ms, ts, n - 1);
      assert MessageEffect(ms[n - 1], ws[n - 1], ts[n - 1], ws[n]);
      MessageAgrees(ms[n - 1], ws[n - 1], ts[n - 1], ws[n], AllOrphans(ws, ms, ts, n - 1));
    }
  }

  // ---------- fast path and slow path ----------

  /** A join of which the database answered the selects leaves no orphan exactly when it gets to
      insert at least one row: the request describes at least one interface, each with a hardware
      address, and the insert does not fail before its first row. */
  lemma {:induction false} NoOrphanIff(m: Message, tempID: string, p: Payload, w: World, t: Trace, w': World)
    requires Request(m) == Some((JoinRequest, tempID, p)) && MessageEffect(m, w, t, w')
    requires Requester(tempID, p.relay).Some? && t.answered
    ensures Orphans(m, t, w') == {}
            <==> CodesOk(p) && p.uniqueCodes.value != [] && (t.o1.Done? || t.o1.applied > 0)
  {
    var id := Candidate(BaseFirst, Requester(tempID, p.relay).value, 0, t.probes);
    assert id !in DeviceIds(w.db);
    assert Orphans(m, t, w') == {} <==> id in DeviceIds(w'.db) by {
      assert id in Orphans(m, t, w') <==> id !in DeviceIds(w'.db);
    }
    if CodesOk(p) {
      var rows := Inserted(DeviceRows(id, p), t.o1);
      DeviceIdsAfter(w.db, InsertDevice(DeviceRows(id, p)), t.o1);
      assert w'.db.device == w.db.device + rows;
      assert |DeviceRows(id, p)| == |p.uniqueCodes.value|;
      if rows != [] {
        assert rows[0] in w'.db.device && rows[0].deviceId == id;
      } else {
        assert w'.db.device == w.db.device;
      }
    }
  }

  /** Every id issued by a join so far reached Device. */
  ghost predicate Clean(ws: seq<World>, ms: seq<Message>, ts: seq<Trace>, n: nat)
    requires |ws| == |ms| + 1 == |ts| + 1 && n <= |ms|
  {
    forall i :: 0 <= i < n ==> Orphans(ms[i], ts[i], ws[i + 1]) == {}
  }

  lemma {:induction false} CleanMeansNoOrphans(ws: seq<World>, ms: seq<Message>, ts: seq<Trace>, n: nat)
    requires IsRun(ws, ms, ts) && n <= |ms| && Clean(ws, ms, ts, n)
    ensures AllOrphans(ws, ms, ts, n) == {}
  {
    if n > 0 { CleanMeansNoOrphans(ws, ms, ts, n - 1); }
  }

  /** In a clean run every cached device is in the table. */
  lemma {:induction false} CleanCacheAgrees(ws: seq<World>, ms: seq<Message>, ts: seq<Trace>, n: nat)
    requires IsRun(ws, ms, ts) && n <= |ms| && ws[0].devices == map[] && Clean(ws, ms, ts, n)
    ensures CacheAgrees(ws[n], {})
  {
    CacheAlwaysAgrees(ws, ms, ts, n);
    CleanMeansNoOrphans(ws, ms, ts, n);
  }

  /** In a clean run the check "does this device exist" answers exactly what the database select
      would, cached or not; and a failing select can only make it say no. */
  lemma {:induction false} FastPathIsSlowPath(ws: seq<World>, ms: seq<Message>, ts: seq<Trace>, n: nat, d: string,
                                              o: Outcome)
    requires IsRun(ws, ms, ts) && n <= |ms| && ws[0].devices == map[] && Clean(ws, ms, ts, n)
    ensures DeviceOk(ws[n], d, Done) <==> Truthy(Serve(ws[n].db, SelectDevice(d), Done).1.data)
    ensures DeviceOk(ws[n], d, o) ==> d in DeviceIds(ws[n].db)
  {
    CleanCacheAgrees(ws, ms, ts, n);
    SelectFinds(ws[n].db, d, Done);
  }

  /** In any run the two paths differ only on an orphan that is still cached. */
  lemma {:induction false} PathsDifferOnOrphans(ws: seq<World>, ms: seq<Message>, ts: seq<Trace>, n: nat, d: string)
    requires IsRun(ws, ms, ts) && n <= |ms| && ws[0].devices == map[]
    requires DeviceOk(ws[n], d, Done) != Truthy(Serve(ws[n].db, SelectDevice(d), Done).1.data)
    ensures d in ws[n].devices && d !in DeviceIds(ws[n].db) && d in AllOrphans(ws, ms, ts, n)
  {
    CacheAlwaysAgrees(ws, ms, ts, n);
    SelectFinds(ws[n].db, d, Done);
  }

  // ---------- live registrations ----------

  /** Were there no foreign key, an insert of rows for device `d` would keep every registration with
      a device if and only if `d` is one or no row gets in. */
  lemma {:induction false} LiveWithoutKeyIff(db: Db, d: string, rows: seq<RegisterRow>, o: Outcome)
    requires RegistrationsLive(db) && forall r :: r in rows ==> r.deviceId == d
    ensures RegistrationsLive(Serve(db, InsertRegister(rows), o).0) <==> d in DeviceIds(db) || Inserted(rows, o) == []
  {
    var db', rows' := Serve(db, InsertRegister(rows), o).0, Inserted(rows, o);
    if rows' != [] { assert rows'[0] in db'.registerList && rows'[0] in rows; }
  }

  /** A registration that got as far as its insert. */
  ghost predicate PastChecks(m: Message, w: World, t: Trace, d: string) {
    && Request(m).Some? && Request(m).value.0 == RegisterRequest && t.RegisterTrace?
    && var (_, tempID, p) := Request(m).value;
       Requester(tempID, p.relay) == Some(d) && DeviceOk(w, d, t.check) && ItemsOk(p)
  }

  lemma {:induction false} SentRowsNameDevice(w: World, tempID: string, p: Payload, t: Trace)
    requires RegisterSends(w, tempID, p, t) && RegisterReached(w, tempID, p, t)
    ensures forall r :: r in t.batch.rows ==> r.deviceId == Requester(tempID, p.relay).value
  {
    var d := Requester(tempID, p.relay).value;
    forall r | r in t.batch.rows ensures r.deviceId == d {
      var i :| 0 <= i < |t.batch.rows| && t.batch.rows[i] == r;
      BatchIds(BaseFirst, Running, d, p.registerList.value, ProvidingIds(w.db), t.batch, i);
    }
  }

  lemma {:induction false} BatchNamesDevice(m: Message, w: World, t: Trace, w': World, d: string)
    requires MessageEffect(m, w, t, w') && PastChecks(m, w, t, d)
    ensures |t.batch.rows| == |Request(m).value.2.registerList.value|
    ensures forall r :: r in t.batch.rows ==> r.deviceId == d
  {
    var (_, tempID, p) := Request(m).value;
    SentRowsNameDevice(w, tempID, p, t);
  }

  /** In any run the foreign key refuses a registration that passed the device check if and only if it
      has items and its device is not in the table; then the device is a cached orphan. */
  lemma {:induction false} ForeignKeyRefusesIff(ws: seq<World>, ms: seq<Message>, ts: seq<Trace>, n: nat, d: string)
    requires IsRun(ws, ms, ts) && n < |ms| && ws[0].devices == map[]
    requires PastChecks(ms[n], ws[n], ts[n], d)
    ensures (exists r :: r in ts[n].batch.rows && r.deviceId !in DeviceIds(ws[n].db))
            <==> Request(ms[n]).value.2.registerList.value != [] && d !in DeviceIds(ws[n].db)
    ensures d !in DeviceIds(ws[n].db) ==> d in ws[n].devices && d in AllOrphans(ws, ms, ts, n)
  {
    assert MessageEffect(ms[n], ws[n], ts[n], ws[n + 1]);
    BatchNamesDevice(ms[n], ws[n], ts[n], ws[n + 1], d);
    CacheAlwaysAgrees(ws, ms, ts, n);
    if ts[n].batch.rows != [] { assert ts[n].batch.rows[0] in ts[n].batch.rows; }
  }

  lemma {:induction false} AllowedRowsNameDevice(db: Db, rows: seq<RegisterRow>, d: string)
    requires RegistersAllowed(db, rows) && forall r :: r in rows ==> r.deviceId == d
    ensures rows == [] || d in DeviceIds(db)
  {
    if rows != [] { assert rows[0] in rows; }
  }

  /** A registration for a cached orphan passes the device check, and is refused by the foreign key,
      however the database fares otherwise. */
  lemma {:induction false} OrphanCannotRegister(m: Message, w: World, t: Trace, w': World, d: string)
    requires MessageEffect(m, w, t, w') && PastChecks(m, w, t, d) && d !in DeviceIds(w.db)
    requires Request(m).value.2.registerList.value != []
    ensures !Succeeded(w'.acks[|w'.acks| - 1].body) && w'.db == w.db
  {
    BatchNamesDevice(m, w, t, w', d);
    AllowedRowsNameDevice(w.db, Inserted(t.batch.rows, t.o), d);
    assert w.db.registerList + [] == w.db.registerList;
  }

  lemma {:induction false} EmptyJoinLeavesOrphan(w: World, tempID: string, p: Payload, t: Trace, w': World, id: string)
    requires Effect(JoinRequest, w, tempID, p, t, w') && Served(JoinRequest, w, tempID, p, t)
    requires Requester(tempID, p.relay).Some? && p.uniqueCodes == Some([]) && p.neighbors == Some([])
    requires id == Candidate(BaseFirst, Requester(tempID, p.relay).value, 0, t.probes)
    ensures Succeeded(w'.acks[|w'.acks| - 1].body)
    ensures id in w'.devices && id !in DeviceIds(w'.db)
  {
    JoinSucceedsIff(w, tempID, p, t, w');
    assert id in Tried(BaseFirst, Requester(tempID, p.relay).value, 0, t.probes);
    assert DeviceRows(id, p) == [];
    assert w'.db.device == w.db.device;
  }

  /** Such an orphan is easily made: a join that lists neither interfaces nor neighbors succeeds, its
      id passes the cached check from then on, and every registration under it is refused. */
  lemma {:induction false} EmptyJoinCannotRegister(w: World, tempID: string, p: Payload, t: Trace, w1: World,
                                                  m: Message, t': Trace, w2: World)
    requires Effect(JoinRequest, w, tempID, p, t, w1) && Served(JoinRequest, w, tempID, p, t)
    requires Requester(tempID, p.relay).Some? && p.uniqueCodes == Some([]) && p.neighbors == Some([])
    requires MessageEffect(m, w1, t', w2) && Request(m).Some? && Request(m).value.0 == RegisterRequest
    requires Requester(Request(m).value.1, Request(m).value.2.relay)
             == Some(Candidate(BaseFirst, Requester(tempID, p.relay).value, 0, t.probes))
    requires ItemsOk(Request(m).value.2) && Request(m).value.2.registerList.value != []
    ensures Succeeded(w1.acks[|w1.acks| - 1].body)
    ensures DeviceOk(w1, Candidate(BaseFirst, Requester(tempID, p.relay).value, 0, t.probes), t'.check)
    ensures !Succeeded(w2.acks[|w2.acks| - 1].body) && w2.db == w1.db
  {
    var id := Candidate(BaseFirst, Requester(tempID, p.relay).value, 0, t.probes);
    EmptyJoinLeavesOrphan(w, tempID, p, t, w1, id);
    OrphanCannotRegister(m, w1, t', w2, id);
  }

  lemma {:induction false} RegisterKeepsLive(w: World, tempID: string, p: Payload, t: Trace, w': World)
    requires RegistrationsLive(w.db) && Effect(RegisterRequest, w, tempID, p, t, w')
    ensures RegistrationsLive(w'.db)
  {
    if w'.db != w.db {
      var rows := Inserted(t.batch.rows, t.o);
      assert forall r :: r in rows ==> r.deviceId in DeviceIds(w.db);
    }
  }

  lemma {:induction false} UpdateKeepsLive(w: World, tempID: string, p: Payload, t: Trace, w': World)
    requires RegistrationsLive(w.db) && Effect(UpdateRequest, w, tempID, p, t, w')
    ensures RegistrationsLive(w'.db)
  {
    assert w'.db.device == w.db.device;
    if w'.db != w.db && !p.deregister {
      var rows := UpdateRows(w.db.registerList, p.id.GetOr("None"), AttrMap(p.attributes.value));
      assert w'.db.registerList == rows;
      forall r | r in rows ensures r.deviceId in DeviceIds(w.db) {
        var i :| 0 <= i < |rows| && rows[i] == r;
        assert w.db.registerList[i] in w.db.registerList;
      }
    }
  }

  lemma {:induction false} MessageKeepsLive(m: Message, w: World, t: Trace, w': World)
    requires RegistrationsLive(w.db) && MessageEffect(m, w, t, w')
    ensures RegistrationsLive(w'.db)
  {
    if Request(m).Some? {
      var (kind, tempID, p) := Request(m).value;
      match kind {
        case JoinRequest =>
          if Requester(tempID, p.relay).Some? { JoinOnlyAddsDevices(w, tempID, p, t, w'); }
        case LeaveRequest =>
          if Requester(tempID, p.relay).Some? { DeleteCascades(w.db, Requester(tempID, p.relay).value); }
        case RegisterRequest => RegisterKeepsLive(w, tempID, p, t, w');
        case UpdateRequest => UpdateKeepsLive(w, tempID, p, t, w');
        case QueryRequest =>
      }
    }
  }

  /** With the foreign key every registration names a live device in every state of every run, over every
      leave, if it did at the start. */
  lemma {:induction false} ForeignKeyKeepsLive(ws: seq<World>, ms: seq<Message>, ts: seq<Trace>, n: nat)
    requires IsRun(ws, ms, ts) && n <= |ms| && RegistrationsLive(ws[0].db)
    ensures RegistrationsLive(ws[n].db)
  {
    if n > 0 {
      ForeignKeyKeepsLive(ws, ms, ts, n - 1);
      MessageKeepsLive(ms[n - 1], ws[n - 1], ts[n - 1], ws[n]);
    }
  }

  // ---------- without the foreign key ----------

  /** A database without keys on RegisterList: it takes any rows that a registration sends. */
  ghost predicate UnkeyedEffect(m: Message, w: World, t: Trace, w': World) {
    match Request(m)
    case Some((RegisterRequest, tempID, p)) =>
      && RegisterSends(w, tempID, p, t)
      && var (after, body) := RegisterHandle(w, tempID, p, t);
         w' == after.(acks := w.acks + [Ack(AckTopic(RegisterRequest, tempID), body)])
    case _ => MessageEffect(m, w, t, w')
  }

  ghost predicate IsUnkeyedRun(ws: seq<World>, ms: seq<Message>, ts: seq<Trace>) {
    && |ws| == |ms| + 1 == |ts| + 1
    && forall i :: 0 <= i < |ms| ==> UnkeyedEffect(ms[i], ws[i], ts[i], ws[i + 1])
  }

  /** The keys only take runs away. */
  lemma {:induction false} EveryRunIsUnkeyed(ws: seq<World>, ms: seq<Message>, ts: seq<Trace>)
    requires IsRun(ws, ms, ts)
    ensures IsUnkeyedRun(ws, ms, ts)
  {
    forall i | 0 <= i < |ms| ensures UnkeyedEffect(ms[i], ws[i], ts[i], ws[i + 1]) {
      EveryEffectIsUnkeyed(ms[i], ws[i], ts[i], ws[i + 1]);
    }
  }

  lemma {:induction false} EveryEffectIsUnkeyed(m: Message, w: World, t: Trace, w': World)
    requires MessageEffect(m, w, t, w')
    ensures UnkeyedEffect(m, w, t, w')
  {
  }

  lemma {:induction false} UnkeyedRegisterKeeps(w: World, tempID: string, p: Payload, t: Trace)
    requires CacheAgrees(w, {}) && RegistrationsLive(w.db) && RegisterSends(w, tempID, p, t)
    ensures CacheAgrees(RegisterHandle(w, tempID, p, t).0, {})
    ensures RegistrationsLive(RegisterHandle(w, tempID, p, t).0.db)
  {
    if Requester(tempID, p.relay).Some? {
      CheckAgrees(w, Requester(tempID, p.relay).value, t.check, {});
    }
    if RegisterReached(w, tempID, p, t) {
      SentRowsNameDevice(w, tempID, p, t);
      LiveWithoutKeyIff(w.db, Requester(tempID, p.relay).value, t.batch.rows, t.o);
      DeviceIdsAfter(w.db, InsertRegister(t.batch.rows), t.o);
    }
  }

  lemma {:induction false} UnkeyedStepKeeps(m: Message, w: World, t: Trace, w': World)
    requires CacheAgrees(w, {}) && RegistrationsLive(w.db) && UnkeyedEffect(m, w, t, w') && Orphans(m, t, w') == {}
    ensures CacheAgrees(w', {}) && RegistrationsLive(w'.db)
  {
    if Request(m).Some? && Request(m).value.0.RegisterRequest? {
      UnkeyedRegisterKeeps(w, Request(m).value.1, Request(m).value.2, t);
    } else {
      MessageAgrees(m, w, t, w', {});
      MessageKeepsLive(m, w, t, w');
    }
  }

  /** The manager itself keeps registrations live: in every clean run on a database that checks no keys on
      RegisterList every cached device is in the table and every registration names a live device, over
      every leave. */
  lemma {:induction false} RegistrationsStayLive(ws: seq<World>, ms: seq<Message>, ts: seq<Trace>, n: nat)
    requires IsUnkeyedRun(ws, ms, ts) && n <= |ms| && Clean(ws, ms, ts, n)
    requires ws[0].devices == map[] && RegistrationsLive(ws[0].db)
    ensures CacheAgrees(ws[n], {}) && RegistrationsLive(ws[n].db)
  {
    if n > 0 {
      RegistrationsStayLive(ws, ms, ts, n - 1);
      UnkeyedStepKeeps(ms[n - 1], ws[n - 1], ts[n - 1], ws[n]);
    }
  }

  /** In a clean run, with or without the foreign key, every row of a registration that got as far as its
      insert names a device: the key never has to refuse one. */
  lemma {:induction false} ForeignKeyNotNeeded(ws: seq<World>, ms: seq<Message>, ts: seq<Trace>, n: nat, tempID: string,
                                               p: Payload)
    requires IsUnkeyedRun(ws, ms, ts) && n < |ms| && Clean(ws, ms, ts, n)
    requires ws[0].devices == map[] && RegistrationsLive(ws[0].db)
    requires Request(ms[n]) == Some((RegisterRequest, tempID, p)) && ts[n].RegisterTrace?
    requires RegisterReached(ws[n], tempID, p, ts[n])
    ensures forall r :: r in ts[n].batch.rows ==> r.deviceId in DeviceIds(ws[n].db)
  {
    RegistrationsStayLive(ws, ms, ts, n);
    assert UnkeyedEffect(ms[n], ws[n], ts[n], ws[n + 1]);
    SentRowsNameDevice(ws[n], tempID, p, ts[n]);
  }

  // ---------- dbQuery_cache ----------

  predicate IsJoin(m: Message) {
    Request(m).Some? && Request(m).value.0 == JoinRequest
  }

  function Joins(ms: seq<Message>): nat {
    if ms == [] then 0 else Joins(ms[..|ms| - 1]) + if IsJoin(ms[|ms| - 1]) then 1 else 0
  }

  /** Every request of the run was acknowledged without an error. */
  ghost predicate AllSucceed(ws: seq<World>, ms: seq<Message>)
    requires |ws| == |ms| + 1
  {
    forall i :: 0 <= i < |ms| && Request(ms[i]).Some? ==>
      ws[i + 1].acks != [] && Succeeded(ws[i + 1].acks[|ws[i + 1].acks| - 1].body)
  }

  /** A successful leave, register, update or query restores `dbQuery_cache` exactly; a successful
      join adds exactly two entries, the replies to its two inserts, and changes no other. */
  lemma {:induction false} SlotsAfterSuccess(kind: Kind, w: World, tempID: string, p: Payload, t: Trace, w': World)
    requires Effect(kind, w, tempID, p, t, w') && Succeeded(w'.acks[|w'.acks| - 1].body)
    ensures !kind.JoinRequest? ==> w'.slots == w.slots
    ensures kind.JoinRequest? ==>
              && t.q1 !in w.slots && t.q2 !in w.slots && t.q1 != t.q2
              && w'.slots == w.slots[t.q1 := Settled(Reply(0, NoData))][t.q2 := Settled(Reply(0, NoData))]
  {
  }

  lemma {:induction false} SlotsAfterMessage(m: Message, w: World, t: Trace, w': World)
    requires MessageEffect(m, w, t, w') && (Request(m).Some? ==> Succeeded(w'.acks[|w'.acks| - 1].body))
    ensures |w'.slots| == |w.slots| + if IsJoin(m) then 2 else 0
  {
    if Request(m).Some? {
      var (kind, tempID, p) := Request(m).value;
      SlotsAfterSuccess(kind, w, tempID, p, t, w');
    }
  }

  /** Accounting over runs in which every request succeeds: the number of entries is the initial
      one plus two for every join. */
  lemma {:induction false} SlotsCountJoins(ws: seq<World>, ms: seq<Message>, ts: seq<Trace>, n: nat)
    requires IsRun(ws, ms, ts) && AllSucceed(ws, ms) && n <= |ms|
    ensures |ws[n].slots| == |ws[0].slots| + 2 * Joins(ms[..n])
  {
    if n > 0 {
      SlotsCountJoins(ws, ms, ts, n - 1);
      assert ms[..n][..n - 1] == ms[..n - 1];
      assert MessageEffect(ms[n - 1], ws[n - 1], ts[n - 1], ws[n]);
      SlotsAfterMessage(ms[n - 1], ws[n - 1], ts[n - 1], ws[n]);
    }
  }

  /** The id space allows for 2^31 joins and no more. */
  lemma {:induction false} JoinsAreLimited(ws: seq<World>, ms: seq<Message>, ts: seq<Trace>)
    requires IsRun(ws, ms, ts) && AllSucceed(ws, ms)
    ensures Joins(ms) <= 0x8000_0000
  {
    SlotsCountJoins(ws, ms, ts, |ms|);
    assert ms[..|ms|] == ms;
    UnusedIds(ws[|ms|].slots);
  }

  // ---------- the query id of a reply ----------

  /** The reply to a query echoes the request's own `queryID` only if the handler failed before its
      first database query: the relay names nobody, or the device is cached and the requirements
      are missing. Every successful reply carries an internal id instead. */
  lemma {:induction false} QueryIdEchoedIff(w: World, tempID: string, p: Payload, t: Trace, w': World)
    requires Effect(QueryRequest, w, tempID, p, t, w')
    ensures w'.acks[|w'.acks| - 1].body.QueryAck?
    ensures w'.acks[|w'.acks| - 1].body.queryID == Asked(p.queryID)
            <==> Requester(tempID, p.relay).None?
                 || (Requester(tempID, p.relay).value in w.devices && p.qosRequirements.None?)
    ensures Succeeded(w'.acks[|w'.acks| - 1].body) ==> w'.acks[|w'.acks| - 1].body.queryID.Internal?
  {
  }
}
