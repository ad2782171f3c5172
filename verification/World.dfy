/** The state of the broker manager as a value, and what each request does to it. A request's
    effect depends on choices of the environment (how the database fares, which unused query id
    is drawn); they are collected in a `Trace`. */
module World {
  import opened Wrappers
  import opened Probe
  import opened JoinId
  import opened Tables
  import opened Queries
  import opened Requests
  import opened Batch
  import opened Topics

  datatype AckBody =
    | JoinDone(id: string, relay: Relay)
    | JoinFailed(tempID: string, relay: Relay)
    | LeaveAck(error: int, relay: Relay)
    | RegisterDone(registerID: Option<string>, idList: seq<(string, string)>, relay: Relay)
    | RegisterFailed(registerID: Option<string>, relay: Relay)
    | UpdateAck(error: int, updateID: Option<string>, relay: Relay)
    | QueryAck(error: int, queryID: QueryTag, relay: Relay)

  /** The `queryID` of a reply: the request's, or an id drawn for a database query. */
  datatype QueryTag = Asked(asked: Option<string>) | Internal(internal: QueryId)

  datatype Ack = Ack(topic: string, body: AckBody)

  datatype World = World(devices: map<string, Mark>, slots: map<QueryId, Slot>, db: Db, acks: seq<Ack>)

  datatype Trace =
    | JoinTrace(probes: nat, answered: bool, q1: QueryId, o1: Outcome, q2: QueryId, o2: Outcome)
    | LeaveTrace(q: QueryId, o: Outcome)
    | RegisterTrace(check: Outcome, batch: Built, q: QueryId, o: Outcome)
    | UpdateTrace(check: Outcome, content: Outcome, answer: Data, q: QueryId, o: Outcome)
    | QueryTrace(check: Outcome, q1: QueryId, q2: QueryId)
    | NoTrace

  predicate Succeeded(body: AckBody) {
    match body
    case JoinDone(_, _) => true
    case JoinFailed(_, _) => false
    case RegisterDone(_, _, _) => true
    case RegisterFailed(_, _) => false
    case LeaveAck(error, _) => error == 0
    case UpdateAck(error, _, _) => error == 0
    case QueryAck(error, _, _) => error == 0
  }

  /** One database round trip; the entry of `dbQuery_cache` is kept or deleted by the handler. */
  function RoundTrip(w: World, q: Query, o: Outcome, id: QueryId, kept: bool): World {
    var (db, reply) := Serve(w.db, q, o);
    w.(db := db, slots := if kept then w.slots[id := Settled(reply)] else w.slots)
  }

  /** The check "does this device exist": the cache first, then the database. */
  predicate DeviceOk(w: World, d: string, o: Outcome) {
    d in w.devices || (o.Done? && d in DeviceIds(w.db))
  }

  function Checked(w: World, d: string, o: Outcome): World {
    if DeviceOk(w, d, o) && d !in w.devices then w.(devices := w.devices[d := Confirmed]) else w
  }

  ghost function JoinHandle(w: World, tempID: string, p: Payload, t: Trace): (World, AckBody)
    requires t.JoinTrace?
  {
    var failed := JoinFailed(tempID, p.relay);
    match Requester(tempID, p.relay)
    case None => (w, failed)
    case Some(base) =>
      var id := Candidate(BaseFirst, base, 0, t.probes);
      var w1 := w.(devices := Marked(w.devices, Tried(BaseFirst, base, 0, t.probes)));
      if !CodesOk(p) then (w1, failed) else
      var w2 := RoundTrip(w1, InsertDevice(DeviceRows(id, p)), t.o1, t.q1, true);
      if t.o1.Refused? || !NeighborsOk(p) then (w2, failed) else
      var w3 := RoundTrip(w2, InsertNeighbor(NeighborRows(id, p)), t.o2, t.q2, true);
      (w3, if t.o2.Done? then JoinDone(id, p.relay) else failed)
  }

  ghost predicate JoinLegal(w: World, tempID: string, p: Payload, t: Trace) {
    && t.JoinTrace?
    && (Requester(tempID, p.relay).Some? ==>
          && GeneratedAt(BaseFirst, w.devices, w.db, Requester(tempID, p.relay).value, 0, t.probes, t.answered)
          && (CodesOk(p) ==> t.q1 !in w.slots && Allowed(w.db, JoinInsert(tempID, p, t), t.o1))
          && (CodesOk(p) && t.o1.Done? && NeighborsOk(p) ==>
                && t.q2 !in w.slots && t.q2 != t.q1
                && Allowed(AfterJoinInsert(w.db, tempID, p, t), NeighborInsert(tempID, p, t), t.o2)))
  }

  /** The statements of a join, and the tables between them. */
  ghost function JoinInsert(tempID: string, p: Payload, t: Trace): Query
    requires t.JoinTrace? && Requester(tempID, p.relay).Some? && CodesOk(p)
  {
    InsertDevice(DeviceRows(Candidate(BaseFirst, Requester(tempID, p.relay).value, 0, t.probes), p))
  }

  ghost function AfterJoinInsert(db: Db, tempID: string, p: Payload, t: Trace): Db
    requires t.JoinTrace? && Requester(tempID, p.relay).Some? && CodesOk(p)
  {
    Serve(db, JoinInsert(tempID, p, t), t.o1).0
  }

  ghost function NeighborInsert(tempID: string, p: Payload, t: Trace): Query
    requires t.JoinTrace? && Requester(tempID, p.relay).Some? && NeighborsOk(p)
  {
    InsertNeighbor(NeighborRows(Candidate(BaseFirst, Requester(tempID, p.relay).value, 0, t.probes), p))
  }

  ghost function LeaveHandle(w: World, tempID: string, p: Payload, t: Trace): (World, AckBody)
    requires t.LeaveTrace?
  {
    match Requester(tempID, p.relay)
    case None => (w, LeaveAck(1, p.relay))
    case Some(d) =>
      var w1 := RoundTrip(w, DeleteDevice(d), t.o, t.q, t.o.Refused?);
      if t.o.Done? && d in w.devices then (w1.(devices := w.devices - {d}), LeaveAck(0, p.relay))
      else (w1, LeaveAck(1, p.relay))
  }

  ghost predicate LeaveLegal(w: World, tempID: string, p: Payload, t: Trace) {
    t.LeaveTrace? && (Requester(tempID, p.relay).Some? && t.o.Refused? ==> t.q !in w.slots)
  }

  predicate ItemsOk(p: Payload) {
    p.registerList.Some? && forall item :: item in p.registerList.value ==> ItemOk(item)
  }

  ghost function RegisterHandle(w: World, tempID: string, p: Payload, t: Trace): (World, AckBody)
    requires t.RegisterTrace?
  {
    var failed := RegisterFailed(p.registerID, p.relay);
    match Requester(tempID, p.relay)
    case None => (w, failed)
    case Some(d) =>
      var w1 := Checked(w, d, t.check);
      if !DeviceOk(w, d, t.check) || !ItemsOk(p) then (w1, failed) else
      (RoundTrip(w1, InsertRegister(t.batch.rows), t.o, t.q, t.o.Refused?),
       if t.o.Done? then RegisterDone(p.registerID, t.batch.idList, p.relay) else failed)
  }

  /** A registration gets as far as its insert. */
  ghost predicate RegisterReached(w: World, tempID: string, p: Payload, t: Trace)
    requires t.RegisterTrace?
  {
    Requester(tempID, p.relay).Some? && DeviceOk(w, Requester(tempID, p.relay).value, t.check) && ItemsOk(p)
  }

  /** What the manager itself does in a registration, whatever the database makes of its insert. */
  ghost predicate RegisterSends(w: World, tempID: string, p: Payload, t: Trace) {
    && t.RegisterTrace?
    && (RegisterReached(w, tempID, p, t) ==>
          && BatchBuilt(BaseFirst, Running, Requester(tempID, p.relay).value, p.registerList.value,
                        ProvidingIds(w.db), t.batch)
          && (t.o.Refused? ==> t.q !in w.slots))
  }

  ghost predicate RegisterLegal(w: World, tempID: string, p: Payload, t: Trace) {
    && RegisterSends(w, tempID, p, t)
    && (RegisterReached(w, tempID, p, t) ==> Allowed(w.db, InsertRegister(t.batch.rows), t.o))
  }

  ghost function UpdateHandle(w: World, tempID: string, p: Payload, t: Trace): (World, AckBody)
    requires t.UpdateTrace?
  {
    var failed := UpdateAck(1, p.updateID, p.relay);
    match Requester(tempID, p.relay)
    case None => (w, failed)
    case Some(d) =>
      var w1 := Checked(w, d, t.check);
      if !DeviceOk(w, d, t.check) || t.content.Refused? || !Truthy(t.answer) then (w1, failed)
      else if !p.deregister && p.attributes.None? then (w1, failed)
      else
        (RoundTrip(w1, UpdateQuery(p), t.o, t.q, t.o.Refused?),
         UpdateAck(if t.o.Done? then 0 else 1, p.updateID, p.relay))
  }

  function UpdateQuery(p: Payload): Query
    requires p.deregister || p.attributes.Some?
  {
    if p.deregister then DeleteRegister(p.id.GetOr("None"))
    else UpdateRegister(p.id.GetOr("None"), AttrMap(p.attributes.value))
  }

  /** The device and content checks of an update are passed and its statement is complete. */
  predicate UpdateReached(w: World, tempID: string, p: Payload, t: Trace)
    requires t.UpdateTrace?
  {
    && Requester(tempID, p.relay).Some? && DeviceOk(w, Requester(tempID, p.relay).value, t.check)
    && t.content.Done? && Truthy(t.answer) && (p.deregister || p.attributes.Some?)
  }

  ghost predicate UpdateLegal(w: World, tempID: string, p: Payload, t: Trace) {
    && t.UpdateTrace?
    && (t.o.Refused? ==> t.q !in w.slots)
    && (UpdateReached(w, tempID, p, t) ==> Allowed(w.db, UpdateQuery(p), t.o))
  }

  ghost function QueryHandle(w: World, tempID: string, p: Payload, t: Trace): (World, AckBody)
    requires t.QueryTrace?
  {
    match Requester(tempID, p.relay)
    case None => (w, QueryAck(1, Asked(p.queryID), p.relay))
    case Some(d) =>
      var tag := if d in w.devices then Asked(p.queryID) else Internal(t.q1);
      var w1 := Checked(w, d, t.check);
      if !DeviceOk(w, d, t.check) || p.qosRequirements.None? then (w1, QueryAck(1, tag, p.relay))
      else (w1, QueryAck(0, Internal(t.q2), p.relay))
  }

  ghost predicate Legal(kind: Kind, w: World, tempID: string, p: Payload, t: Trace) {
    match kind
    case JoinRequest => JoinLegal(w, tempID, p, t)
    case LeaveRequest => LeaveLegal(w, tempID, p, t)
    case RegisterRequest => RegisterLegal(w, tempID, p, t)
    case UpdateRequest => UpdateLegal(w, tempID, p, t)
    case QueryRequest => t.QueryTrace?
  }

  /** The database answered every select of the request and refused nothing but what the schema forbids. */
  ghost predicate Served(kind: Kind, w: World, tempID: string, p: Payload, t: Trace)
    requires Legal(kind, w, tempID, p, t)
  {
    match kind
    case JoinRequest =>
      && t.answered
      && (Requester(tempID, p.relay).Some? && CodesOk(p) ==>
            && Willing(w.db, JoinInsert(tempID, p, t), t.o1)
            && (t.o1.Done? && NeighborsOk(p) ==>
                  Willing(AfterJoinInsert(w.db, tempID, p, t), NeighborInsert(tempID, p, t), t.o2)))
    case LeaveRequest => t.o.Done?
    case RegisterRequest => t.check.Done? && AllAnswered(t.batch) && Willing(w.db, InsertRegister(t.batch.rows), t.o)
    case UpdateRequest =>
      && t.check.Done? && t.content.Done?
      && (UpdateReached(w, tempID, p, t) ==> Willing(w.db, UpdateQuery(p), t.o))
    case QueryRequest => t.check.Done?
  }

  /** The new state, before the acknowledgement is published, and the acknowledgement. */
  ghost function Handle(kind: Kind, w: World, tempID: string, p: Payload, t: Trace): (World, AckBody)
    requires Legal(kind, w, tempID, p, t)
  {
    match kind
    case JoinRequest => JoinHandle(w, tempID, p, t)
    case LeaveRequest => LeaveHandle(w, tempID, p, t)
    case RegisterRequest => RegisterHandle(w, tempID, p, t)
    case UpdateRequest => UpdateHandle(w, tempID, p, t)
    case QueryRequest => QueryHandle(w, tempID, p, t)
  }

  ghost predicate Effect(kind: Kind, w: World, tempID: string, p: Payload, t: Trace, w': World) {
    && Legal(kind, w, tempID, p, t)
    && var (after, body) := Handle(kind, w, tempID, p, t);
       w' == after.(acks := w.acks + [Ack(AckTopic(kind, tempID), body)])
  }

  /** An incoming message; `body` is `None` when the payload is not a JSON object. */
  datatype Message = Message(topic: string, body: Option<Payload>)

  /** The request in a message, if a handler takes it up. */
  function Request(m: Message): Option<(Kind, string, Payload)> {
    if Route(m.topic).Some? && m.body.Some? then Some((Route(m.topic).value.0, Route(m.topic).value.1, m.body.value))
    else None
  }

  ghost predicate MessageEffect(m: Message, w: World, t: Trace, w': World) {
    match Request(m)
    case Some((kind, tempID, p)) => Effect(kind, w, tempID, p, t, w')
    case None => w' == w
  }

  ghost predicate MessageServed(m: Message, w: World, t: Trace) {
    match Request(m)
    case Some((kind, tempID, p)) => Legal(kind, w, tempID, p, t) && Served(kind, w, tempID, p, t)
    case None => true
  }
}
