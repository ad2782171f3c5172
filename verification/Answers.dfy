/** What each request of the broker manager does and answers, in terms of its own fields, the tables and
    the caches. */
module Answers {
  import opened Wrappers
  import opened Decimal
  import opened Probe
  import opened JoinId
  import opened Tables
  import opened Queries
  import opened Requests
  import opened Batch
  import opened Topics
  import opened World

  /** The request has been answered with exactly one message. */
  ghost predicate Answered(w: World, w': World, topic: string, body: AckBody) {
    w'.acks == w.acks + [Ack(topic, body)]
  }

  /** The check "does this device exist" leaves behind: a device that was not cached and that the database
      found is cached now. */
  ghost predicate DeviceLearnt(w: World, w': World, d: string, check: Outcome) {
    w'.devices
    == if d !in w.devices && check.Done? && d in DeviceIds(w.db) then w.devices[d := Confirmed] else w.devices
  }

  ghost predicate DeviceKnown(w: World, d: string, check: Outcome) {
    d in w.devices || (check.Done? && d in DeviceIds(w.db))
  }

  /** A request about nobody is answered with an error and does nothing. */
  lemma {:induction false} NobodyAnswers(kind: Kind, w: World, tempID: string, p: Payload, t: Trace, w': World)
    requires Effect(kind, w, tempID, p, t, w') && p.relay in {NoRelay, Text(""), Hops([])}
    ensures w' == w.(acks := w'.acks) && |w'.acks| == |w.acks| + 1 && !Succeeded(w'.acks[|w.acks|].body)
  {
    AboutNobodyIff(tempID, p.relay);
  }

  // ---------- join ----------

  /** A missing field and the string "none" become "NULL". */
  ghost predicate OrNullIs(field: Option<string>, value: string) {
    value == if field.None? || field.value == "none" then "NULL" else field.value
  }

  ghost predicate InterfaceRow(row: DeviceRow, id: string, p: Payload, c: UniqueCode) {
    && row.deviceId == id && row.relay == p.relay && row.pubKey == p.pubKey
    && row.ifaceType == c.ifaceType.GetOr("NULL") && Some(row.hwAddress) == c.hwAddress
    && row.ipv4 == c.ipv4.GetOr("NULL") && row.wifiSSID == c.wifiSSID.GetOr("NULL")
  }

  ghost predicate NeighborRowIs(row: NeighborRow, id: string, n: Neighbor) {
    && row.deviceId == id && Some(row.neighborId) == n.neighborFlexID
    && OrNullIs(n.neighborIface, row.neighborIface) && OrNullIs(n.neighborIpv4, row.neighborIpv4)
    && OrNullIs(n.neighborHwAddress, row.neighborHwAddress)
  }

  /** The tables have grown at their ends by rows that name `id`, and RegisterList has not. */
  ghost predicate GrownFor(db: Db, db': Db, id: string) {
    && db.device <= db'.device && (forall r :: r in db'.device[|db.device|..] ==> r.deviceId == id)
    && db.neighbor <= db'.neighbor && (forall r :: r in db'.neighbor[|db.neighbor|..] ==> r.deviceId == id)
    && db'.registerList == db.registerList
  }

  /** They have grown by one row for each interface and one for each neighbor, in order. */
  ghost predicate JoinedRows(db: Db, db': Db, id: string, p: Payload) {
    && p.uniqueCodes.Some? && |db'.device| == |db.device| + |p.uniqueCodes.value|
    && (forall i :: 0 <= i < |p.uniqueCodes.value| ==>
          InterfaceRow(db'.device[|db.device| + i], id, p, p.uniqueCodes.value[i]))
    && p.neighbors.Some? && |db'.neighbor| == |db.neighbor| + |p.neighbors.value|
    && (forall i :: 0 <= i < |p.neighbors.value| ==>
          NeighborRowIs(db'.neighbor[|db.neighbor| + i], id, p.neighbors.value[i]))
  }

  /** The identifier of the `k`-th probe of a join, as printed. */
  function Probed(base: string, k: nat): string {
    base + Str(4 * k)
  }

  lemma {:induction false} ProbedIsCandidate(base: string, j: nat)
    ensures Candidate(BaseFirst, base, 0, j) == Probed(base, j)
  {
  }

  lemma {:induction false} JoinMarks(w: World, tempID: string, p: Payload, t: Trace, w': World, base: string)
    requires Effect(JoinRequest, w, tempID, p, t, w') && Requester(tempID, p.relay) == Some(base)
    ensures GeneratedAt(BaseFirst, w.devices, w.db, base, 0, t.probes, t.answered)
    ensures w'.devices == Marked(w.devices, Tried(BaseFirst, base, 0, t.probes))
  {
  }

  /** A join with base `base` gets an identifier that was not cached, the base and a multiple of 4 behind it,
      and every smaller one was cached or in the table. These identifiers are cached afterwards, and
      nothing else is new there. */
  lemma {:induction false} JoinReserves(w: World, tempID: string, p: Payload, t: Trace, w': World, base: string)
      returns (k: nat)
    requires Effect(JoinRequest, w, tempID, p, t, w') && About(tempID, p.relay, base)
    ensures k == t.probes && Probed(base, k) !in w.devices && (t.answered ==> Probed(base, k) !in DeviceIds(w.db))
    ensures forall j :: 0 <= j < k ==> Probed(base, j) in w.devices || Probed(base, j) in DeviceIds(w.db)
    ensures forall c :: c in w'.devices <==> c in w.devices || exists j :: 0 <= j <= k && c == Probed(base, j)
  {
    RequesterIff(tempID, p.relay, base);
    k := t.probes;
    JoinMarks(w, tempID, p, t, w', base);
    forall j: nat ensures Candidate(BaseFirst, base, 0, j) == Probed(base, j) {
      ProbedIsCandidate(base, j);
    }
  }

  /** However far it gets, a join adds to the tables only rows that name its identifier. */
  lemma {:induction false} JoinGrows(w: World, tempID: string, p: Payload, t: Trace, w': World, base: string)
    requires Effect(JoinRequest, w, tempID, p, t, w') && About(tempID, p.relay, base)
    ensures GrownFor(w.db, w'.db, Probed(base, t.probes))
  {
    RequesterIff(tempID, p.relay, base);
    ProbedIsCandidate(base, t.probes);
  }

  /** What a successful join adds, as the statements it sends. */
  lemma {:induction false} JoinAdds(w: World, tempID: string, p: Payload, t: Trace, w': World, base: string)
      returns (body: AckBody)
    requires Effect(JoinRequest, w, tempID, p, t, w') && Requester(tempID, p.relay) == Some(base)
    ensures Answered(w, w', AckTopic(JoinRequest, tempID), body)
    ensures var id := Candidate(BaseFirst, base, 0, t.probes);
            || body == JoinFailed(tempID, p.relay)
            || (body == JoinDone(id, p.relay) && CodesOk(p) && NeighborsOk(p)
                && w'.db.device == w.db.device + DeviceRows(id, p)
                && w'.db.neighbor == w.db.neighbor + NeighborRows(id, p))
  {
    body := JoinHandle(w, tempID, p, t).1;
  }

  lemma {:induction false} RowsJoined(db: Db, db': Db, id: string, p: Payload)
    requires CodesOk(p) && NeighborsOk(p)
    requires db'.device == db.device + DeviceRows(id, p) && db'.neighbor == db.neighbor + NeighborRows(id, p)
    ensures JoinedRows(db, db', id, p)
  {
    forall i | 0 <= i < |p.uniqueCodes.value|
      ensures InterfaceRow(db'.device[|db.device| + i], id, p, p.uniqueCodes.value[i])
    {
      assert p.uniqueCodes.value[i] in p.uniqueCodes.value;
    }
    forall i | 0 <= i < |p.neighbors.value|
      ensures NeighborRowIs(db'.neighbor[|db.neighbor| + i], id, p.neighbors.value[i])
    {
      assert p.neighbors.value[i] in p.neighbors.value;
    }
  }

  /** A join is answered once, on the topic of the sender: with the identifier under which its interfaces
      and neighbors have just been entered, or with an error. */
  lemma {:induction false} JoinAnswers(w: World, tempID: string, p: Payload, t: Trace, w': World, base: string)
      returns (body: AckBody)
    requires Effect(JoinRequest, w, tempID, p, t, w') && About(tempID, p.relay, base)
    ensures Answered(w, w', "/" + "configuration" + "/" + "join_ack" + "/" + tempID, body)
    ensures || body == JoinFailed(tempID, p.relay)
            || (body == JoinDone(Probed(base, t.probes), p.relay)
                && JoinedRows(w.db, w'.db, Probed(base, t.probes), p))
  {
    RequesterIff(tempID, p.relay, base);
    AnswerTopics(tempID);
    body := JoinAdds(w, tempID, p, t, w', base);
    ProbedIsCandidate(base, t.probes);
    if body.JoinDone? { RowsJoined(w.db, w'.db, Probed(base, t.probes), p); }
  }

  // ---------- leave ----------

  lemma {:induction false} LeaveSends(w: World, tempID: string, p: Payload, t: Trace, w': World, d: string)
    requires Effect(LeaveRequest, w, tempID, p, t, w') && Requester(tempID, p.relay) == Some(d)
    ensures Answered(w, w', AckTopic(LeaveRequest, tempID),
                     LeaveAck(if t.o.Done? && d in w.devices then 0 else 1, p.relay))
    ensures t.o.Done? ==>
              w'.db == Serve(w.db, DeleteDevice(d), Done).0 && w'.devices == w.devices - {d} && w'.slots == w.slots
    ensures t.o.Refused? ==>
              && w'.db == w.db && w'.devices == w.devices
              && t.q !in w.slots && w'.slots == w.slots[t.q := Settled(Reply(1, NoData))]
  {
  }

  /** A leave of `d` that the database completes takes exactly the rows that name `d` out of all three tables
      and `d` out of the cache. It is answered with 0 if `d` was cached, else with an error, although the
      rows are gone. One that is refused changes nothing but leaves its entry in `dbQuery_cache`. */
  lemma {:induction false} LeaveAnswers(w: World, tempID: string, p: Payload, t: Trace, w': World, d: string)
    requires Effect(LeaveRequest, w, tempID, p, t, w') && About(tempID, p.relay, d)
    ensures Answered(w, w', "/" + "configuration" + "/" + "leave_ack" + "/" + tempID,
                     LeaveAck(if t.o.Done? && d in w.devices then 0 else 1, p.relay))
    ensures t.o.Done? ==>
              && DevicesGone(w'.db.device, w.db.device, d) && NeighborsGone(w'.db.neighbor, w.db.neighbor, d)
              && RegistersGone(w'.db.registerList, w.db.registerList, d)
              && DeviceIds(w'.db) == DeviceIds(w.db) - {d}
              && (forall r :: r in w'.db.neighbor ==> r.deviceId != d)
              && (forall r :: r in w'.db.registerList ==> r.deviceId != d)
              && w'.devices == w.devices - {d} && w'.slots == w.slots
    ensures t.o.Refused? ==>
              && w'.db == w.db && w'.devices == w.devices
              && t.q !in w.slots && w'.slots == w.slots[t.q := Settled(Reply(1, NoData))]
  {
    RequesterIff(tempID, p.relay, d);
    AnswerTopics(tempID);
    LeaveSends(w, tempID, p, t, w', d);
    DeleteDeviceRemoves(w.db, d);
    DeleteCascades(w.db, d);
  }

  // ---------- register ----------

  /** A registration about device `d` enters rows that name `d`, if any. If it succeeds, `d` was known, there
      is one row for each item, in order, and the answer announces the identifiers of exactly these rows. */
  lemma {:induction false} RegisterAnswers(w: World, tempID: string, p: Payload, t: Trace, w': World, d: string)
      returns (body: AckBody)
    requires Effect(RegisterRequest, w, tempID, p, t, w') && About(tempID, p.relay, d)
    ensures Answered(w, w', "/" + "configuration" + "/" + "register_ack" + "/" + tempID, body)
    ensures w.db.registerList <= w'.db.registerList
    ensures || body == RegisterFailed(p.registerID, p.relay)
            || (body.RegisterDone? && body.registerID == p.registerID && body.relay == p.relay
                && DeviceKnown(w, d, t.check) && p.registerList.Some?
                && ItemsEntered(BaseFirst, d, p.registerList.value, body.idList,
                                w'.db.registerList[|w.db.registerList|..]))
    ensures forall r :: r in w'.db.registerList[|w.db.registerList|..] ==> r.deviceId == d
    ensures w'.db.device == w.db.device && w'.db.neighbor == w.db.neighbor && DeviceLearnt(w, w', d, t.check)
  {
    RequesterIff(tempID, p.relay, d);
    AnswerTopics(tempID);
    body := RegisterHandle(w, tempID, p, t).1;
    if RegisterReached(w, tempID, p, t) {
      BatchNames(BaseFirst, Running, d, p.registerList.value, ProvidingIds(w.db), t.batch);
      BatchEntered(BaseFirst, Running, d, p.registerList.value, ProvidingIds(w.db), t.batch);
    }
  }

  // ---------- update ----------

  /** The entries under `p` hold the attributes in their first columns and are otherwise as before; the other
      entries are as before altogether. */
  ghost predicate AttributesSet(r: seq<RegisterRow>, rows: seq<RegisterRow>, p: string, attributes: seq<string>) {
    && |r| == |rows|
    && forall i :: 0 <= i < |rows| ==>
         if rows[i].providingId == p then
           && r[i] == rows[i].(attrs := r[i].attrs)
           && (forall k :: 0 <= k < |attributes| ==> Column(r[i].attrs, k, attributes[k]))
           && OthersKept(r[i].attrs, rows[i].attrs, |attributes|)
         else r[i] == rows[i]
  }

  /** One of the columns attr1 to attr`n`. */
  ghost predicate IsColumn(key: string, n: nat) {
    exists k: nat :: k < n && key == AttrKey(k)
  }

  ghost predicate OthersKept(columns: map<string, string>, before: map<string, string>, n: nat) {
    forall key :: !IsColumn(key, n) ==>
      && (key in columns <==> key in before)
      && (key in before && key in columns ==> columns[key] == before[key])
  }

  ghost predicate UpdateDone(w: World, p: Payload, t: Trace, d: string)
    requires t.UpdateTrace?
  {
    && DeviceKnown(w, d, t.check) && t.content.Done? && Truthy(t.answer)
    && (p.deregister || p.attributes.Some?) && t.o.Done?
  }

  lemma {:induction false} UpdateSends(w: World, tempID: string, p: Payload, t: Trace, w': World, d: string)
    requires Effect(UpdateRequest, w, tempID, p, t, w') && Requester(tempID, p.relay) == Some(d)
    ensures Answered(w, w', AckTopic(UpdateRequest, tempID),
                     UpdateAck(if UpdateDone(w, p, t, d) then 0 else 1, p.updateID, p.relay))
    ensures w'.db == if UpdateDone(w, p, t, d) then Serve(w.db, UpdateQuery(p), Done).0 else w.db
    ensures DeviceLearnt(w, w', d, t.check)
    ensures t.o.Done? ==> w'.slots == w.slots
  {
  }

  /** Whatever fails, every entry of `dbQuery_cache` is kept; a statement that is refused leaves its own there,
      settled with an error. */
  lemma {:induction false} EntriesAreKept(kind: Kind, w: World, tempID: string, p: Payload, t: Trace, w': World)
    requires Effect(kind, w, tempID, p, t, w') && (kind.RegisterRequest? || kind.UpdateRequest? || kind.LeaveRequest?)
    ensures w'.slots == w.slots
            || exists q: QueryId :: q !in w.slots && w'.slots == w.slots[q := Settled(Reply(1, NoData))]
    ensures Succeeded(w'.acks[|w.acks|].body) ==> w'.slots == w.slots
  {
    match kind {
      case RegisterRequest => if w'.slots != w.slots { assert t.q !in w.slots; }
      case UpdateRequest => if w'.slots != w.slots { assert t.q !in w.slots; }
      case LeaveRequest => if w'.slots != w.slots { assert t.q !in w.slots; }
      case JoinRequest =>
      case QueryRequest =>
    }
  }

  /** A join adds at most two entries, those of its inserts, and none only if it fails before the first. */
  lemma {:induction false} JoinEntries(w: World, tempID: string, p: Payload, t: Trace, w': World)
    requires Effect(JoinRequest, w, tempID, p, t, w')
    ensures forall q :: q in w.slots ==> q in w'.slots && w'.slots[q] == w.slots[q]
    ensures forall q :: q in w'.slots && q !in w.slots ==> q in {t.q1, t.q2} && w'.slots[q].Settled?
    ensures w'.slots == w.slots <==> p.relay in {NoRelay, Text(""), Hops([])} || !CodesOk(p)
  {
    AboutNobodyIff(tempID, p.relay);
  }

  /** An update about device `d` succeeds if `d` is known, the content check found something, the request is
      complete and the database completes its statement. It then deletes exactly the entry `id` of the
      request, or sets its attributes; otherwise it changes no table. */
  lemma {:induction false} UpdateAnswers(w: World, tempID: string, p: Payload, t: Trace, w': World, d: string)
    requires Effect(UpdateRequest, w, tempID, p, t, w') && About(tempID, p.relay, d)
    ensures Answered(w, w', "/" + "configuration" + "/" + "update_ack" + "/" + tempID,
                     UpdateAck(if UpdateDone(w, p, t, d) then 0 else 1, p.updateID, p.relay))
    ensures UpdateDone(w, p, t, d) && p.deregister ==>
              EntriesGone(w'.db.registerList, w.db.registerList, p.id.GetOr("None"))
    ensures UpdateDone(w, p, t, d) && !p.deregister ==>
              AttributesSet(w'.db.registerList, w.db.registerList, p.id.GetOr("None"), p.attributes.value)
    ensures !UpdateDone(w, p, t, d) ==> w'.db == w.db
    ensures w'.db.device == w.db.device && w'.db.neighbor == w.db.neighbor && DeviceLearnt(w, w', d, t.check)
  {
    RequesterIff(tempID, p.relay, d);
    AnswerTopics(tempID);
    UpdateSends(w, tempID, p, t, w', d);
    EntriesGo(w.db.registerList, p.id.GetOr("None"));
    if p.attributes.Some? { RowsUpdated(w.db.registerList, p.id.GetOr("None"), p.attributes.value); }
  }

  lemma {:induction false} RowsUpdated(rows: seq<RegisterRow>, p: string, attributes: seq<string>)
    ensures AttributesSet(UpdateRows(rows, p, AttrMap(attributes)), rows, p, attributes)
  {
    forall k | 0 <= k < |attributes| ensures Column(AttrMap(attributes), k, attributes[k]) {
      AttrMapAt(attributes, k);
    }
    forall key | key in AttrMap(attributes) ensures IsColumn(key, |attributes|) {
      AttrMapDomain(attributes, key);
    }
  }

  // ---------- query ----------

  /** A query about device `d` succeeds if `d` is known and the requirements are listed; it changes no table. */
  lemma {:induction false} QueryAnswers(w: World, tempID: string, p: Payload, t: Trace, w': World, d: string)
      returns (tag: QueryTag)
    requires Effect(QueryRequest, w, tempID, p, t, w') && About(tempID, p.relay, d)
    ensures Answered(w, w', "/" + "utilization" + "/" + "reply" + "/" + tempID,
                     QueryAck(if DeviceKnown(w, d, t.check) && p.qosRequirements.Some? then 0 else 1, tag, p.relay))
    ensures w'.db == w.db && w'.slots == w.slots && DeviceLearnt(w, w', d, t.check)
  {
    RequesterIff(tempID, p.relay, d);
    AnswerTopics(tempID);
    tag := QueryHandle(w, tempID, p, t).1.queryID;
  }
}
