/** The three tables and what one database query does to them. Strings are compared for exact
    equality, tables are sequences of rows. */
module Tables {
  import opened Wrappers

  /** The `relay` field of a request: missing, a plain string, or the list of hops. */
  datatype Relay = NoRelay | Text(text: string) | Hops(hops: seq<string>)

  datatype DeviceRow = DeviceRow(deviceId: string, relay: Relay, pubKey: Option<string>, ifaceType: string,
                                 hwAddress: string, ipv4: string, wifiSSID: string)

  datatype NeighborRow = NeighborRow(neighborIface: string, neighborIpv4: string, neighborHwAddress: string,
                                     neighborId: string, deviceId: string)

  datatype RegisterRow = RegisterRow(deviceId: string, providingId: string, hash: string,
                                     registerType: Option<string>, category: Option<string>,
                                     attrs: map<string, string>)

  datatype Db = Db(device: seq<DeviceRow>, neighbor: seq<NeighborRow>, registerList: seq<RegisterRow>)

  datatype Query =
    | InsertDevice(devices: seq<DeviceRow>)
    | InsertNeighbor(neighbors: seq<NeighborRow>)
    | InsertRegister(registers: seq<RegisterRow>)
    | SelectDevice(deviceId: string)
    | SelectRegister(providingId: string)
    | SelectNothing(answer: Data) // the empty query that `update` sends; its answer is anything at all
    | DeleteDevice(deviceId: string)
    | DeleteRegister(providingId: string)
    | UpdateRegister(providingId: string, attrs: map<string, string>)

  /** The `data` field of a reply; only whether it is empty is ever looked at. */
  datatype Data = NoData | Devices(devices: seq<DeviceRow>) | Registers(registers: seq<RegisterRow>)

  /** `error` is 0 for success; a reply without an `error` field counts as an error. */
  datatype Reply = Reply(error: int, data: Data)

  predicate Truthy(data: Data) {
    match data
    case NoData => false
    case Devices(rows) => rows != []
    case Registers(rows) => rows != []
  }

  /** How the database fares with a query: it completes it, or it reports an error. Rows are
      inserted one at a time, so a failing insert may leave any number of its rows behind; a
      failing select has no data; a failing delete or update changes nothing. */
  datatype Outcome = Done | Refused(applied: nat)

  function Filter<T(!new)>(p: T -> bool, rows: seq<T>): (r: seq<T>)
    ensures forall x :: x in r <==> x in rows && p(x)
    ensures r == [] <==> forall x :: x in rows ==> !p(x)
  {
    if rows == [] then []
    else
      assert rows == [rows[0]] + rows[1..];
      (if p(rows[0]) then [rows[0]] else []) + Filter(p, rows[1..])
  }

  function DevicesWithout(rows: seq<DeviceRow>, d: string): (r: seq<DeviceRow>)
    ensures forall x :: x in r <==> x in rows && x.deviceId != d
  {
    Filter((r: DeviceRow) => r.deviceId != d, rows)
  }

  function NeighborsWithout(rows: seq<NeighborRow>, d: string): (r: seq<NeighborRow>)
    ensures forall x :: x in r <==> x in rows && x.deviceId != d
  {
    Filter((r: NeighborRow) => r.deviceId != d, rows)
  }

  function WithoutDevice(rows: seq<RegisterRow>, d: string): (r: seq<RegisterRow>)
    ensures forall x :: x in r <==> x in rows && x.deviceId != d
  {
    Filter((r: RegisterRow) => r.deviceId != d, rows)
  }

  function WithoutId(rows: seq<RegisterRow>, p: string): (r: seq<RegisterRow>)
    ensures forall x :: x in r <==> x in rows && x.providingId != p
  {
    Filter((r: RegisterRow) => r.providingId != p, rows)
  }

  /** The rows a failing or completed insert leaves behind. */
  function Inserted<T>(rows: seq<T>, o: Outcome): (r: seq<T>)
    ensures r <= rows && (o.Done? ==> r == rows)
  {
    if o.Refused? && o.applied < |rows| then rows[..o.applied] else rows
  }

  function UpdateRows(rows: seq<RegisterRow>, providingId: string, attrs: map<string, string>): (r: seq<RegisterRow>)
    ensures |r| == |rows|
    ensures forall i :: 0 <= i < |rows| ==> r[i].deviceId == rows[i].deviceId && r[i].providingId == rows[i].providingId
  {
    seq(|rows|, i requires 0 <= i < |rows| =>
      if rows[i].providingId == providingId then rows[i].(attrs := rows[i].attrs + attrs) else rows[i])
  }

  /** One query against the tables: the new tables and the reply. Deleting a device deletes the
      rows that name it in the other tables (the schema's ON DELETE CASCADE). */
  function Serve(db: Db, q: Query, o: Outcome): (Db, Reply) {
    var ack := Reply(if o.Done? then 0 else 1, NoData);
    match q
    case InsertDevice(rows) => (db.(device := db.device + Inserted(rows, o)), ack)
    case InsertNeighbor(rows) => (db.(neighbor := db.neighbor + Inserted(rows, o)), ack)
    case InsertRegister(rows) => (db.(registerList := db.registerList + Inserted(rows, o)), ack)
    case SelectDevice(d) =>
      (db, if o.Done? then Reply(0, Devices(Filter((r: DeviceRow) => r.deviceId == d, db.device))) else ack)
    case SelectRegister(p) =>
      (db, if o.Done? then Reply(0, Registers(Filter((r: RegisterRow) => r.providingId == p, db.registerList)))
           else ack)
    case SelectNothing(answer) =>
      (db, if o.Done? then Reply(0, answer) else ack)
    case DeleteDevice(d) =>
      (if o.Refused? then db else
         Db(DevicesWithout(db.device, d), NeighborsWithout(db.neighbor, d), WithoutDevice(db.registerList, d)),
       ack)
    case DeleteRegister(p) =>
      (if o.Refused? then db else
         db.(registerList := WithoutId(db.registerList, p)),
       ack)
    case UpdateRegister(p, attrs) =>
      (if o.Refused? then db else db.(registerList := UpdateRows(db.registerList, p, attrs)), ack)
  }

  /** The kinds of query that the local version's `db_proc` has a branch for. */
  predicate InDbProc(q: Query) {
    q.InsertDevice? || q.InsertNeighbor? || q.InsertRegister? || q.SelectDevice? || q.SelectRegister?
  }

  /** `db_proc`: the new tables, and what it returns; `None` when a statement raises. */
  function DbProc(db: Db, q: Query, o: Outcome): (Db, Option<Reply>)
    requires InDbProc(q)
  {
    var (db', reply) := Serve(db, q, o);
    (db', if o.Done? then Some(reply) else None)
  }

  function DeviceIds(db: Db): set<string> {
    set r | r in db.device :: r.deviceId
  }

  function ProvidingIds(db: Db): set<string> {
    set r | r in db.registerList :: r.providingId
  }

  function NeighborIds(db: Db): set<string> {
    set r | r in db.neighbor :: r.neighborId
  }

  /** The primary key of RegisterList. */
  function RegisterKey(row: RegisterRow): (string, string) {
    (row.providingId, row.deviceId)
  }

  function RegisterKeys(db: Db): set<(string, string)> {
    set r | r in db.registerList :: RegisterKey(r)
  }

  /** Every registration belongs to a registered device. */
  ghost predicate RegistrationsLive(db: Db) {
    forall r :: r in db.registerList ==> r.deviceId in DeviceIds(db)
  }

  /** The schema's keys: primary keys are unique, and every neighbor and registration names a device. */
  ghost predicate KeysHold(db: Db) {
    && (forall i, j :: 0 <= i < j < |db.device| ==> db.device[i].deviceId != db.device[j].deviceId)
    && (forall i, j :: 0 <= i < j < |db.neighbor| ==> db.neighbor[i].neighborId != db.neighbor[j].neighborId)
    && (forall i, j :: 0 <= i < j < |db.registerList| ==>
          RegisterKey(db.registerList[i]) != RegisterKey(db.registerList[j]))
    && (forall r :: r in db.neighbor ==> r.deviceId in DeviceIds(db))
    && RegistrationsLive(db)
  }

  predicate DevicesAllowed(db: Db, rows: seq<DeviceRow>) {
    && (forall r :: r in rows ==> r.deviceId !in DeviceIds(db))
    && (forall i, j :: 0 <= i < j < |rows| ==> rows[i].deviceId != rows[j].deviceId)
  }

  predicate NeighborsAllowed(db: Db, rows: seq<NeighborRow>) {
    && (forall r :: r in rows ==> r.deviceId in DeviceIds(db) && r.neighborId !in NeighborIds(db))
    && (forall i, j :: 0 <= i < j < |rows| ==> rows[i].neighborId != rows[j].neighborId)
  }

  /** The attribute columns RegisterList has. */
  predicate ColumnsExist(attrs: map<string, string>) {
    attrs.Keys <= {"attr1", "attr2", "attr3"}
  }

  predicate RegistersAllowed(db: Db, rows: seq<RegisterRow>) {
    && (forall r :: r in rows ==>
          r.deviceId in DeviceIds(db) && RegisterKey(r) !in RegisterKeys(db) && ColumnsExist(r.attrs))
    && (forall i, j :: 0 <= i < j < |rows| ==> RegisterKey(rows[i]) != RegisterKey(rows[j]))
  }

  /** The schema lets the whole query through: the columns it sets exist, its rows have new primary keys
      and name devices that exist. */
  predicate SchemaAllows(db: Db, q: Query) {
    match q
    case InsertDevice(rows) => DevicesAllowed(db, rows)
    case InsertNeighbor(rows) => NeighborsAllowed(db, rows)
    case InsertRegister(rows) => RegistersAllowed(db, rows)
    case UpdateRegister(_, attrs) => ColumnsExist(attrs)
    case _ => true
  }

  /** An outcome possible under the schema: it lets every row in that was inserted by this account. */
  predicate Allowed(db: Db, q: Query, o: Outcome) {
    match q
    case InsertDevice(rows) => DevicesAllowed(db, Inserted(rows, o))
    case InsertNeighbor(rows) => NeighborsAllowed(db, Inserted(rows, o))
    case InsertRegister(rows) => RegistersAllowed(db, Inserted(rows, o))
    case UpdateRegister(_, attrs) => o.Done? ==> ColumnsExist(attrs)
    case _ => true
  }

  /** The database refuses nothing but what the schema forbids. */
  predicate Willing(db: Db, q: Query, o: Outcome) {
    SchemaAllows(db, q) ==> o.Done?
  }

  /** A query can complete only if the schema lets all of it through; that it is refused at once is
      always possible. */
  lemma {:induction false} AllowedOutcomes(db: Db, q: Query)
    ensures Allowed(db, q, Done) <==> SchemaAllows(db, q)
    ensures Allowed(db, q, Refused(0))
  {
  }

  /** A part of the rows in their order: where row `k` of the result was before. */
  ghost predicate PartOf<T(!new)>(r: seq<T>, rows: seq<T>, at: seq<nat>) {
    && |at| == |r|
    && (forall k :: 0 <= k < |at| ==> at[k] < |rows| && r[k] == rows[at[k]])
    && (forall k, l :: 0 <= k < l < |at| ==> at[k] < at[l])
  }

  lemma {:induction false} Shifted(at: seq<nat>) returns (more: seq<nat>)
    ensures |more| == |at| && forall k :: 0 <= k < |at| ==> more[k] == at[k] + 1
    ensures 0 !in more && forall k: nat :: k + 1 in more <==> k in at
  {
    more := seq(|at|, k requires 0 <= k < |at| => at[k] + 1);
    forall k: nat ensures k + 1 in more <==> k in at {
      if k in at {
        var j :| 0 <= j < |at| && at[j] == k;
        assert more[j] == k + 1;
      }
    }
  }

  lemma {:induction false} PartOfMore<T(!new)>(first: T, r: seq<T>, rest: seq<T>, at: seq<nat>, keep: bool)
      returns (more: seq<nat>)
    requires PartOf(r, rest, at)
    ensures PartOf((if keep then [first] else []) + r, [first] + rest, more)
    ensures (0 in more <==> keep) && forall k: nat :: k + 1 in more <==> k in at
  {
    more := Shifted(at);
    if keep {
      more := [0] + more;
    } else {
      assert [] + r == r;
    }
  }

  /** A filter keeps exactly the rows it is for, in their order. */
  lemma {:induction false} FilterIsPart<T(!new)>(p: T -> bool, rows: seq<T>) returns (at: seq<nat>)
    ensures PartOf(Filter(p, rows), rows, at)
    ensures forall k: nat :: k < |rows| ==> (k in at <==> p(rows[k]))
  {
    at := [];
    if rows != [] {
      var later := FilterIsPart(p, rows[1..]);
      assert rows == [rows[0]] + rows[1..];
      at := PartOfMore(rows[0], Filter(p, rows[1..]), rows[1..], later, p(rows[0]));
      KeptIndices(p, rows, later, at);
    }
  }

  lemma {:induction false} KeptIndices<T(!new)>(p: T -> bool, rows: seq<T>, later: seq<nat>, at: seq<nat>)
    requires rows != [] && forall k: nat :: k < |rows[1..]| ==> (k in later <==> p(rows[1..][k]))
    requires (0 in at <==> p(rows[0])) && forall k: nat :: k + 1 in at <==> k in later
    ensures forall k: nat :: k < |rows| ==> (k in at <==> p(rows[k]))
  {
    forall k: nat | k < |rows| ensures k in at <==> p(rows[k]) {
      if k > 0 { assert k == (k - 1) + 1 && rows[1..][k - 1] == rows[k]; }
    }
  }

  lemma {:induction false} InsertKeepsKeys(db: Db, q: Query, o: Outcome)
    requires KeysHold(db) && Allowed(db, q, o) && (q.InsertDevice? || q.InsertNeighbor? || q.InsertRegister?)
    ensures KeysHold(Serve(db, q, o).0)
  {
    var db' := Serve(db, q, o).0;
    DeviceIdsAfter(db, q, o);
    match q {
      case InsertDevice(rows) =>
        forall i, j | 0 <= i < j < |db'.device| ensures db'.device[i].deviceId != db'.device[j].deviceId {
          if i < |db.device| { assert db.device[i] in db.device; }
          if j >= |db.device| { assert db'.device[j] in Inserted(rows, o); }
        }
      case InsertNeighbor(rows) =>
        forall i, j | 0 <= i < j < |db'.neighbor| ensures db'.neighbor[i].neighborId != db'.neighbor[j].neighborId {
          if i < |db.neighbor| { assert db.neighbor[i] in db.neighbor; }
          if j >= |db.neighbor| { assert db'.neighbor[j] in Inserted(rows, o); }
        }
      case InsertRegister(rows) =>
        forall i, j | 0 <= i < j < |db'.registerList|
          ensures RegisterKey(db'.registerList[i]) != RegisterKey(db'.registerList[j])
        {
          if i < |db.registerList| { assert db.registerList[i] in db.registerList; }
          if j >= |db.registerList| { assert db'.registerList[j] in Inserted(rows, o); }
        }
    }
  }

  lemma {:induction false} DevicesStayApart(rows: seq<DeviceRow>, d: string)
    requires forall i, j :: 0 <= i < j < |rows| ==> rows[i].deviceId != rows[j].deviceId
    ensures var r := DevicesWithout(rows, d);
            forall i, j :: 0 <= i < j < |r| ==> r[i].deviceId != r[j].deviceId
  {
    var at := FilterIsPart((r: DeviceRow) => r.deviceId != d, rows);
  }

  lemma {:induction false} NeighborsStayApart(rows: seq<NeighborRow>, d: string)
    requires forall i, j :: 0 <= i < j < |rows| ==> rows[i].neighborId != rows[j].neighborId
    ensures var r := NeighborsWithout(rows, d);
            forall i, j :: 0 <= i < j < |r| ==> r[i].neighborId != r[j].neighborId
  {
    var at := FilterIsPart((r: NeighborRow) => r.deviceId != d, rows);
  }

  lemma {:induction false} RegistersStayApart(rows: seq<RegisterRow>, d: string, p: string)
    requires forall i, j :: 0 <= i < j < |rows| ==> RegisterKey(rows[i]) != RegisterKey(rows[j])
    ensures var r := WithoutDevice(rows, d);
            forall i, j :: 0 <= i < j < |r| ==> RegisterKey(r[i]) != RegisterKey(r[j])
    ensures var r := WithoutId(rows, p);
            forall i, j :: 0 <= i < j < |r| ==> RegisterKey(r[i]) != RegisterKey(r[j])
  {
    var at := FilterIsPart((r: RegisterRow) => r.deviceId != d, rows);
    var at' := FilterIsPart((r: RegisterRow) => r.providingId != p, rows);
  }

  /** Rows that go take no other row's key with them. */
  lemma {:induction false} DeleteKeepsKeys(db: Db, q: Query)
    requires KeysHold(db) && (q.DeleteDevice? || q.DeleteRegister?)
    ensures KeysHold(Serve(db, q, Done).0)
  {
    match q {
      case DeleteDevice(d) =>
        DevicesStayApart(db.device, d);
        NeighborsStayApart(db.neighbor, d);
        RegistersStayApart(db.registerList, d, "");
        DeleteCascades(db, d);
      case DeleteRegister(p) =>
        RegistersStayApart(db.registerList, "", p);
    }
  }

  /** Every query keeps the keys, with every outcome that the schema allows. */
  lemma {:induction false} ServeKeepsKeys(db: Db, q: Query, o: Outcome)
    requires KeysHold(db) && Allowed(db, q, o)
    ensures KeysHold(Serve(db, q, o).0)
  {
    match q {
      case InsertDevice(_) | InsertNeighbor(_) | InsertRegister(_) => InsertKeepsKeys(db, q, o);
      case DeleteDevice(_) | DeleteRegister(_) => if o.Done? { DeleteKeepsKeys(db, q); }
      case UpdateRegister(p, attrs) =>
        var rows := UpdateRows(db.registerList, p, attrs);
        forall r | r in rows ensures r.deviceId in DeviceIds(db) {
          var i :| 0 <= i < |rows| && rows[i] == r;
          assert db.registerList[i] in db.registerList;
        }
      case SelectDevice(_) | SelectRegister(_) | SelectNothing(_) =>
    }
  }

  /** A completed select on a key finds something exactly when the key is in the table; a failed
      one looks like an empty answer. */
  lemma {:induction false} SelectReturns(db: Db, key: string)
    ensures var r := Serve(db, SelectDevice(key), Done).1;
            && r.error == 0 && r.data.Devices?
            && forall row :: row in r.data.devices <==> row in db.device && row.deviceId == key
    ensures var r := Serve(db, SelectRegister(key), Done).1;
            && r.error == 0 && r.data.Registers?
            && forall row :: row in r.data.registers <==> row in db.registerList && row.providingId == key
  {
  }

  /** Whether a select finds anything is all that is looked at. */
  lemma {:induction false} SelectFinds(db: Db, key: string, o: Outcome)
    ensures Truthy(Serve(db, SelectDevice(key), o).1.data) <==> o.Done? && key in DeviceIds(db)
    ensures Truthy(Serve(db, SelectRegister(key), o).1.data) <==> o.Done? && key in ProvidingIds(db)
  {
    if key in DeviceIds(db) {
      var r :| r in db.device && r.deviceId == key;
    }
    if key in ProvidingIds(db) {
      var r :| r in db.registerList && r.providingId == key;
    }
  }

  /** Exactly the rows that name `d` are gone; the others are there in their order. */
  ghost predicate DevicesGone(r: seq<DeviceRow>, rows: seq<DeviceRow>, d: string) {
    exists at :: PartOf(r, rows, at) && forall k: nat :: k < |rows| ==> (k in at <==> rows[k].deviceId != d)
  }

  ghost predicate NeighborsGone(r: seq<NeighborRow>, rows: seq<NeighborRow>, d: string) {
    exists at :: PartOf(r, rows, at) && forall k: nat :: k < |rows| ==> (k in at <==> rows[k].deviceId != d)
  }

  ghost predicate RegistersGone(r: seq<RegisterRow>, rows: seq<RegisterRow>, d: string) {
    exists at :: PartOf(r, rows, at) && forall k: nat :: k < |rows| ==> (k in at <==> rows[k].deviceId != d)
  }

  /** Exactly the registrations under the identifier `p` are gone. */
  ghost predicate EntriesGone(r: seq<RegisterRow>, rows: seq<RegisterRow>, p: string) {
    exists at :: PartOf(r, rows, at) && forall k: nat :: k < |rows| ==> (k in at <==> rows[k].providingId != p)
  }

  lemma {:induction false} DevicesGo(rows: seq<DeviceRow>, d: string)
    ensures DevicesGone(DevicesWithout(rows, d), rows, d)
  {
    var at := FilterIsPart((r: DeviceRow) => r.deviceId != d, rows);
    assert PartOf(DevicesWithout(rows, d), rows, at);
  }

  lemma {:induction false} NeighborsGo(rows: seq<NeighborRow>, d: string)
    ensures NeighborsGone(NeighborsWithout(rows, d), rows, d)
  {
    var at := FilterIsPart((r: NeighborRow) => r.deviceId != d, rows);
    assert PartOf(NeighborsWithout(rows, d), rows, at);
  }

  lemma {:induction false} RegistersGo(rows: seq<RegisterRow>, d: string)
    ensures RegistersGone(WithoutDevice(rows, d), rows, d)
  {
    var at := FilterIsPart((r: RegisterRow) => r.deviceId != d, rows);
    assert PartOf(WithoutDevice(rows, d), rows, at);
  }

  lemma {:induction false} EntriesGo(rows: seq<RegisterRow>, p: string)
    ensures EntriesGone(WithoutId(rows, p), rows, p)
  {
    var at := FilterIsPart((r: RegisterRow) => r.providingId != p, rows);
    assert PartOf(WithoutId(rows, p), rows, at);
  }

  /** Deleting a device takes exactly the rows that name it out of all three tables. */
  lemma {:induction false} DeleteDeviceRemoves(db: Db, d: string)
    ensures var db' := Serve(db, DeleteDevice(d), Done).0;
            && DevicesGone(db'.device, db.device, d) && NeighborsGone(db'.neighbor, db.neighbor, d)
            && RegistersGone(db'.registerList, db.registerList, d)
            && (forall r :: r in db'.neighbor ==> r.deviceId != d)
            && (forall r :: r in db'.registerList ==> r.deviceId != d)
  {
    DevicesGo(db.device, d);
    NeighborsGo(db.neighbor, d);
    RegistersGo(db.registerList, d);
  }

  /** Deleting a device removes exactly its id and leaves no registration behind. */
  lemma {:induction false} DeleteCascades(db: Db, d: string)
    ensures DeviceIds(Serve(db, DeleteDevice(d), Done).0) == DeviceIds(db) - {d}
    ensures RegistrationsLive(db) ==> RegistrationsLive(Serve(db, DeleteDevice(d), Done).0)
  {
    var db' := Serve(db, DeleteDevice(d), Done).0;
    forall x | x in DeviceIds(db) - {d} ensures x in DeviceIds(db') {
      var r :| r in db.device && r.deviceId == x;
      assert r in db'.device;
    }
    forall x | x in DeviceIds(db') ensures x in DeviceIds(db) - {d} {
      var r :| r in db'.device && r.deviceId == x;
      assert r in db.device;
    }
  }

  /** What any query with any outcome does to the set of known devices. */
  lemma {:induction false} DeviceIdsAfter(db: Db, q: Query, o: Outcome)
    ensures var db' := Serve(db, q, o).0;
            DeviceIds(db') ==
              match q
              case InsertDevice(rows) => DeviceIds(db) + (set r | r in Inserted(rows, o) :: r.deviceId)
              case DeleteDevice(d) => if o.Done? then DeviceIds(db) - {d} else DeviceIds(db)
              case _ => DeviceIds(db)
  {
    if q.DeleteDevice? && o.Done? {
      DeleteCascades(db, q.deviceId);
    }
  }
}
