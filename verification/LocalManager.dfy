/** The local version of the manager: every database round trip is a direct call of `db_proc`. A
    statement that fails raises; nothing on the way up to the handler's `try` catches it, so the
    methods in between return `None` for a call that raises. */
module LocalManager {
  import opened Wrappers
  import opened Decimal
  import opened Flags
  import opened Probe
  import opened JoinId
  import opened Tables
  import opened Requests
  import opened Batch
  import opened World

  class LocalFlexManager {
    var deviceCache: map<string, Mark>
    var tables: Db
    const reliable: bool // whether no SQL statement raises but what the schema forbids

    constructor (tables: Db, reliable: bool)
      ensures deviceCache == map[] && this.tables == tables && this.reliable == reliable
    {
      deviceCache, this.tables, this.reliable := map[], tables, reliable;
    }

    /** One INSERT statement; `ok` is false when it raises. */
    method ExecuteInsert(query: Query) returns (ok: bool)
      requires IsInsert(query) && RowCount(query) == 1
      modifies this`tables
      ensures tables == if ok then Serve(old(tables), query, Done).0 else old(tables)
      ensures ok ==> SchemaAllows(old(tables), query)
      ensures reliable ==> ok == SchemaAllows(old(tables), query)
    {
      var accepted: bool := *;
      ok := SchemaAllows(tables, query) && (accepted || reliable);
      if ok {
        match query {
          case InsertDevice(rows) => tables := tables.(device := tables.device + rows);
          case InsertNeighbor(rows) => tables := tables.(neighbor := tables.neighbor + rows);
          case InsertRegister(rows) => tables := tables.(registerList := tables.registerList + rows);
        }
      }
    }

    /** `db_proc` on an insert: row by row, one statement each, up to the first that raises. */
    method DbInsert(query: Query) returns (reply: Option<Reply>, ghost o: Outcome)
      requires IsInsert(query)
      modifies this`tables
      ensures (tables, reply) == DbProc(old(tables), query, o)
      ensures Allowed(old(tables), query, o) && (reliable ==> Willing(old(tables), query, o))
    {
      ghost var start := tables;
      var length := RowCount(query);
      NoRowsYet(start, query);
      for i := 0 to length
        invariant InsertedUpTo(start, query, i, tables)
      {
        var ok := ExecuteInsert(Rows(query, i, i + 1));
        if !ok {
          o := InsertStops(start, query, i, tables, reliable);
          return None, o;
        }
        InsertGoesOn(start, query, i);
      }
      o := InsertEnds(start, query, tables);
      reply := Some(Reply(0, NoData));
    }

    /** `db_proc` on a select. */
    method DbSelect(query: Query) returns (reply: Option<Reply>)
      requires query.SelectDevice? || query.SelectRegister?
      ensures (tables, reply) == DbProc(tables, query, if reply.Some? then Done else Refused(0))
      ensures reliable ==> reply.Some?
    {
      var accepted: bool := *;
      if !accepted && !reliable {
        return None;
      }
      match query {
        case SelectDevice(d) =>
          reply := Some(Reply(0, Devices(Filter((r: DeviceRow) => r.deviceId == d, tables.device))));
        case SelectRegister(p) =>
          reply := Some(Reply(0, Registers(Filter((r: RegisterRow) => r.providingId == p, tables.registerList))));
      }
    }

    /** The inner loop of `join_genID`. */
    method ProbeCache(base: string, flag: nat) returns (newID: string, f: nat, ghost i: nat)
      modifies this`deviceCache
      ensures f == flag + COLLISION_INC * i && newID == Candidate(FlagFirst, base, flag, i)
      ensures LeastFree(FlagFirst, base, flag, old(deviceCache).Keys, i)
      ensures deviceCache == old(deviceCache)[newID := Reserved]
    {
      f, i := flag, 0;
      newID := Str(f) + base;
      while newID in deviceCache
        invariant f == flag + COLLISION_INC * i && newID == Candidate(FlagFirst, base, flag, i)
        invariant forall j :: 0 <= j < i ==> Candidate(FlagFirst, base, flag, j) in deviceCache
        invariant deviceCache == old(deviceCache)
        decreases Ahead(FlagFirst, base, f, deviceCache.Keys)
      {
        AheadShrinks(FlagFirst, base, f, deviceCache.Keys);
        f, i := f + COLLISION_INC, i + 1;
        newID := Str(f) + base;
      }
      deviceCache := deviceCache[newID := Reserved];
    }

    /** "Does a row with this key exist": the select and the look at its data. */
    method Exists(query: Query) returns (found: Option<bool>)
      requires query.SelectDevice? || query.SelectRegister?
      ensures found.Some? && query.SelectDevice? ==> found.value == (query.deviceId in DeviceIds(tables))
      ensures found.Some? && query.SelectRegister? ==> found.value == (query.providingId in ProvidingIds(tables))
      ensures reliable ==> found.Some?
    {
      var reply := DbSelect(query);
      if reply.None? {
        return None;
      }
      found := Some(Truthy(reply.value.data));
      SelectFinds(tables, if query.SelectDevice? then query.deviceId else query.providingId, Done);
    }

    /** One activation of `join_genID` up to its decision; `exist` is `None` if the select raises. */
    method ReserveAndAsk(base: string, flag: nat)
        returns (newID: string, f: nat, exist: Option<bool>, ghost i: nat)
      modifies this`deviceCache
      ensures f == flag + COLLISION_INC * i
      ensures AskedAbout(old(deviceCache), deviceCache, tables, base, flag, i, newID, exist)
      ensures reliable ==> exist.Some?
    {
      newID, f, i := ProbeCache(base, flag);
      exist := Exists(SelectDevice(newID));
      if exist.Some? {
        deviceCache := deviceCache[newID := Confirmed];
      }
    }

    /** `join_genID`, the flag in front. */
    method JoinGenID(base: string, flag: nat) returns (newID: Option<string>, ghost k: nat)
      modifies this`deviceCache
      ensures Ended(old(deviceCache), deviceCache, tables, base, flag, k, newID) && (reliable ==> newID.Some?)
      decreases DeviceIds(tables) - deviceCache.Keys
    {
      ghost var start := deviceCache;
      var id, f, exist, i := ReserveAndAsk(base, flag);
      ghost var asked := deviceCache;
      if exist != Some(true) {
        newID, k := if exist.Some? then Some(id) else None, i;
        EndedAtOnce(start, asked, tables, base, flag, i, id, exist);
        return;
      }
      FewerToAsk(start, asked, tables, base, flag, i, id);
      ghost var later;
      newID, later := JoinGenID(base, f + COLLISION_INC);
      k := EndedLater(start, asked, deviceCache, tables, base, flag, f, i, id, later, newID);
    }

    /** `register_genID`, the flag in front. */
    method RegisterGenID(hash: string, flag: nat) returns (newID: Option<string>, ghost k: nat)
      ensures newID.Some? ==>
                && newID.value == Candidate(FlagFirst, hash, flag, k)
                && LeastFree(FlagFirst, hash, flag, ProvidingIds(tables), k)
      ensures reliable ==> newID.Some?
      decreases Ahead(FlagFirst, hash, flag, ProvidingIds(tables))
    {
      k := 0;
      var id := Str(flag) + hash;
      assert id == Candidate(FlagFirst, hash, flag, 0);
      var exist := Exists(SelectRegister(id));
      if exist.None? {
        return None, k;
      }
      if !exist.value {
        return Some(id), k;
      }
      AheadShrinks(FlagFirst, hash, flag, ProvidingIds(tables));
      ghost var k';
      newID, k' := RegisterGenID(hash, flag + COLLISION_INC);
      k := 1 + k';
      if newID.Some? { ShiftedProbes(FlagFirst, hash, flag, flag + COLLISION_INC, ProvidingIds(tables), k'); }
    }

    /** The identifier of one item: its hash with its flag, probed on if it avoids collisions. */
    method GenerateID(item: Item) returns (newID: Option<string>, ghost k: nat)
      requires ItemOk(item)
      ensures newID.Some? ==>
                && newID.value == ItemId(FlagFirst, item, k)
                && ProbesRight(FlagFirst, item, ProvidingIds(tables), k, {})
      ensures !item.collisionAvoid || reliable ==> newID.Some?
    {
      k := 0;
      var flag := GenFlag(item.cacheBit, item.segment, 0).value;
      if item.collisionAvoid {
        newID, k := RegisterGenID(item.hash.value, flag);
      } else {
        newID := Some(Str(flag) + item.hash.value);
      }
    }

    /** The item loop of `register`; `attrList` is emptied for every item. It ends early when a field
        is missing or a select of the id generation raises. */
    method BuildBatch(deviceID: string, items: seq<Item>)
        returns (ok: bool, idList: seq<(string, string)>, regList: seq<RegisterRow>,
                 ghost b: Built, ghost raised: bool)
      ensures ok <==> (forall item :: item in items ==> ItemOk(item)) && !raised
      ensures ok ==>
                && BatchBuilt(FlagFirst, PerItem, deviceID, items, ProvidingIds(tables), b)
                && b.idList == idList && b.rows == regList && AllAnswered(b)
      ensures reliable || (forall item :: item in items ==> !item.collisionAvoid) ==> !raised
    {
      ok, idList, regList, b, raised := true, [], [], Built([], [], [], []), false;
      for i := 0 to |items|
        invariant forall x :: 0 <= x < i ==> ItemOk(items[x])
        invariant |b.idList| == |b.rows| == |b.probes| == |b.failed| == i
        invariant forall x :: 0 <= x < i ==>
                    RowBuilt(FlagFirst, PerItem, deviceID, items, ProvidingIds(tables), b, x)
        invariant ok && !raised && b.idList == idList && b.rows == regList && AllAnswered(b)
      {
        var item := items[i];
        assert item in items;
        if item.attributes.None? {
          return false, idList, regList, b, false;
        }
        var attrList, attrIdx := Collect([], item.attributes.value);
        if item.hash.None? || item.index.None? {
          return false, idList, regList, b, false;
        }
        var newID, k := GenerateID(item);
        if newID.None? {
          return false, idList, regList, b, true;
        }
        var columns := AttrColumns(attrList, attrIdx);
        assert attrList[..attrIdx] == item.attributes.value;
        var row := RegisterRow(deviceID, newID.value, item.hash.value, item.registerType, item.category, columns);
        RowAdded(FlagFirst, PerItem, deviceID, items, ProvidingIds(tables), b, (item.index.value, newID.value), row,
                 k, {});
        idList := idList + [(item.index.value, newID.value)];
        regList := regList + [row];
        b := Built(idList, regList, b.probes + [k], b.failed + [{}]);
      }
    }

    /** The `try` block of `register`. */
    method TryRegister(tempID: string, p: Payload)
        returns (ack: AckBody, ghost b: Built, ghost checked: Option<bool>, ghost raised: bool, ghost o: Outcome)
      modifies this
      ensures Requester(tempID, p.relay).None? ==>
                ack == RegisterFailed(p.registerID, p.relay) && tables == old(tables) && deviceCache == old(deviceCache)
      ensures Requester(tempID, p.relay).Some? ==>
                Registered(Requester(tempID, p.relay).value, p, old(deviceCache), old(tables), deviceCache, tables, ack,
                           b, checked, raised, o)
      ensures reliable && Requester(tempID, p.relay).Some? ==>
                NothingRaised(Requester(tempID, p.relay).value, p, old(deviceCache), old(tables), b, checked, raised, o)
    {
      ack, b, o := RegisterFailed(p.registerID, p.relay), Built([], [], [], []), Done;
      checked, raised := Some(true), false;
      assert tables.registerList + [] == tables.registerList;
      var deviceID := Requester(tempID, p.relay);
      if deviceID.None? {
        return;
      }
      if deviceID.value !in deviceCache {
        var exist := Exists(SelectDevice(deviceID.value));
        checked := exist;
        if exist != Some(true) {
          return;
        }
        deviceCache := deviceCache[deviceID.value := Confirmed];
      }
      if p.registerList.None? {
        return;
      }
      var ok, idList, regList;
      ghost var built;
      ok, idList, regList, built, raised := BuildBatch(deviceID.value, p.registerList.value);
      if !ok {
        return;
      }
      b := built;
      var reply;
      reply, o := DbInsert(InsertRegister(regList));
      if reply.Some? {
        ack := RegisterDone(p.registerID, idList, p.relay);
      }
      BatchFacts(deviceID.value, p.registerList.value, old(tables), b);
    }

    /** `register`: its effect for the device the request is about, and none if it is about nobody. */
    method Register(tempID: string, p: Payload)
        returns (ack: AckBody, ghost b: Built, ghost checked: Option<bool>, ghost raised: bool, ghost o: Outcome)
      modifies this
      ensures (forall d :: !About(tempID, p.relay, d)) ==>
                ack == RegisterFailed(p.registerID, p.relay) && tables == old(tables) && deviceCache == old(deviceCache)
      ensures forall d :: About(tempID, p.relay, d) ==>
                Registered(d, p, old(deviceCache), old(tables), deviceCache, tables, ack, b, checked, raised, o)
      ensures reliable ==> forall d :: About(tempID, p.relay, d) ==>
                NothingRaised(d, p, old(deviceCache), old(tables), b, checked, raised, o)
    {
      ack, b, checked, raised, o := TryRegister(tempID, p);
      AboutNobodyIff(tempID, p.relay);
      forall d ensures Requester(tempID, p.relay) == Some(d) <==> About(tempID, p.relay, d) {
        RequesterIff(tempID, p.relay, d);
      }
    }
  }

  /** A registration for device `d` succeeds exactly when `d` is cached or found, every item is complete, no
      select raises and the insert completes. Then RegisterList has grown by exactly one row for each item,
      in order, that names `d` and is as announced; all identifiers are new and different, and those that
      avoid collisions are in no other row. Otherwise it has grown by some first rows of the batch at most,
      and by none if a select raised. The cache has learnt `d` if it was found. */
  ghost predicate Registered(d: string, p: Payload, devices: map<string, Mark>, db: Db, devices': map<string, Mark>,
                             db': Db, ack: AckBody, b: Built, checked: Option<bool>, raised: bool, o: Outcome) {
    && (ack.RegisterDone? <==>
          (d in devices || (checked.Some? && d in DeviceIds(db))) && Complete(p) && !raised && o.Done?)
    && devices' == (if d !in devices && checked.Some? && d in DeviceIds(db) then devices[d := Confirmed] else devices)
    && ((d in devices || (checked.Some? && d in DeviceIds(db))) && Complete(p) && !raised ==>
          && BatchBuilt(FlagFirst, PerItem, d, p.registerList.value, ProvidingIds(db), b) && AllAnswered(b)
          && Allowed(db, InsertRegister(b.rows), o))
    && db' == db.(registerList := db.registerList + Inserted(b.rows, o))
    && (forall r :: r in b.rows ==> r.deviceId == d)
    && (raised ==> b.rows == [])
    && (ack.RegisterDone? ==>
          && ack == RegisterDone(p.registerID, b.idList, p.relay)
          && ItemsEntered(FlagFirst, d, p.registerList.value, b.idList, b.rows)
          && AvoidingIdsFresh(p.registerList.value, b, db) && IdsNew(d, b, db)
          && (b.rows == [] || d in DeviceIds(db)))
    && (!ack.RegisterDone? ==> ack == RegisterFailed(p.registerID, p.relay))
  }

  lemma {:induction false} BatchFacts(d: string, items: seq<Item>, db: Db, b: Built)
    requires BatchBuilt(FlagFirst, PerItem, d, items, ProvidingIds(db), b) && AllAnswered(b)
    ensures (forall r :: r in b.rows ==> r.deviceId == d) && ItemsEntered(FlagFirst, d, items, b.idList, b.rows)
    ensures AvoidingIdsFresh(items, b, db)
    ensures SchemaAllows(db, InsertRegister(b.rows)) ==> IdsNew(d, b, db) && (b.rows == [] || d in DeviceIds(db))
  {
    BatchNames(FlagFirst, PerItem, d, items, ProvidingIds(db), b);
    BatchEntered(FlagFirst, PerItem, d, items, ProvidingIds(db), b);
    AvoidingIdsAreFresh(FlagFirst, PerItem, d, items, db, b);
    BatchAllowedIff(FlagFirst, PerItem, d, items, db, b);
  }

  /** Every item has an index, a hash and attributes. */
  ghost predicate Complete(p: Payload) {
    && p.registerList.Some?
    && forall item :: item in p.registerList.value ==> item.index.Some? && item.hash.Some? && item.attributes.Some?
  }

  /** What follows if no statement raises but what the schema forbids. */
  ghost predicate NothingRaised(d: string, p: Payload, devices: map<string, Mark>, db: Db, b: Built,
                                checked: Option<bool>, raised: bool, o: Outcome) {
    && checked.Some? && !raised
    && ((d in devices || d in DeviceIds(db)) && Complete(p) ==> Willing(db, InsertRegister(b.rows), o))
  }

  /** The first uncached candidate is reserved and asked about; after the answer it is marked, while a
      select that raises leaves it reserved. */
  ghost predicate AskedAbout(devices: map<string, Mark>, devices': map<string, Mark>, db: Db, base: string,
                             flag: nat, i: nat, id: string, exist: Option<bool>) {
    && id == Candidate(FlagFirst, base, flag, i)
    && LeastFree(FlagFirst, base, flag, devices.Keys, i)
    && (exist.Some? ==> exist.value == (id in DeviceIds(db)))
    && devices' == devices[id := if exist.Some? then Confirmed else Reserved]
  }

  /** `join_genID` returned candidate `k`, new to cache and table, all earlier ones taken, and exactly the
      tried names are marked; or the select about candidate `k` raised and it stays reserved. */
  ghost predicate Ended(devices: map<string, Mark>, devices': map<string, Mark>, db: Db, base: string, flag: nat,
                        k: nat, newID: Option<string>) {
    && (newID.Some? ==> newID.value == Candidate(FlagFirst, base, flag, k))
    && GeneratedAt(FlagFirst, devices, db, base, flag, k, newID.Some?)
    && devices' == MarkedUpTo(devices, base, flag, k, newID.Some?)
  }

  /** The cache after `join_genID` ended at candidate `k`: with its id, or with an exception. */
  ghost function MarkedUpTo(devices: map<string, Mark>, base: string, flag: nat, k: nat, returned: bool)
    : map<string, Mark>
  {
    var marked := Marked(devices, Tried(FlagFirst, base, flag, k));
    if returned then marked else marked[Candidate(FlagFirst, base, flag, k) := Reserved]
  }

  lemma {:induction false} FewerToAsk(devices: map<string, Mark>, devices': map<string, Mark>, db: Db, base: string,
                                      flag: nat, i: nat, id: string)
    requires AskedAbout(devices, devices', db, base, flag, i, id, Some(true))
    ensures DeviceIds(db) - devices'.Keys < DeviceIds(db) - devices.Keys
  {
    FewerUncached(devices, DeviceIds(db), id);
  }

  lemma {:induction false} EndedAtOnce(devices: map<string, Mark>, devices': map<string, Mark>, db: Db, base: string,
                                       flag: nat, i: nat, id: string, exist: Option<bool>)
    requires AskedAbout(devices, devices', db, base, flag, i, id, exist) && exist != Some(true)
    ensures Ended(devices, devices', db, base, flag, i, if exist.Some? then Some(id) else None)
  {
    FoundAtOnce(FlagFirst, devices, db, base, flag, i, exist.Some?);
    assert devices[id := Confirmed][id := Reserved] == devices[id := Reserved];
  }

  lemma {:induction false} EndedLater(devices: map<string, Mark>, asked: map<string, Mark>,
                                      devices': map<string, Mark>, db: Db, base: string, flag: nat, f: nat, i: nat,
                                      id: string, later: nat, newID: Option<string>)
      returns (k: nat)
    requires f == flag + COLLISION_INC * i && AskedAbout(devices, asked, db, base, flag, i, id, Some(true))
    requires Ended(asked, devices', db, base, f + COLLISION_INC, later, newID)
    ensures Ended(devices, devices', db, base, flag, k, newID)
  {
    var next := flag + COLLISION_INC * (i + 1);
    assert f + COLLISION_INC == next;
    k := i + 1 + later;
    assert asked == devices[Candidate(FlagFirst, base, flag, i) := Confirmed];
    var marked := Marked(asked, Tried(FlagFirst, base, next, later));
    assert Candidate(FlagFirst, base, next, later) == Candidate(FlagFirst, base, flag, k)
           && GeneratedAt(FlagFirst, devices, db, base, flag, k, newID.Some?)
           && marked == Marked(devices, Tried(FlagFirst, base, flag, k)) by {
      FoundLater(FlagFirst, devices, db, base, flag, i, later, newID.Some?);
    }
  }

  predicate IsInsert(query: Query) {
    query.InsertDevice? || query.InsertNeighbor? || query.InsertRegister?
  }

  function RowCount(query: Query): nat
    requires IsInsert(query)
  {
    match query
    case InsertDevice(rows) => |rows|
    case InsertNeighbor(rows) => |rows|
    case InsertRegister(rows) => |rows|
  }

  /** The insert of rows `i` up to `j` only. */
  function Rows(query: Query, i: nat, j: nat): (q: Query)
    requires IsInsert(query)
    requires i <= j <= RowCount(query)
    ensures q.InsertDevice? == query.InsertDevice? && q.InsertNeighbor? == query.InsertNeighbor?
    ensures q.InsertRegister? == query.InsertRegister? && RowCount(q) == j - i
  {
    match query
    case InsertDevice(rows) => InsertDevice(rows[i..j])
    case InsertNeighbor(rows) => InsertNeighbor(rows[i..j])
    case InsertRegister(rows) => InsertRegister(rows[i..j])
  }

  lemma {:induction false} InsertOneMore(db: Db, query: Query, i: nat)
    requires IsInsert(query) && i < RowCount(query)
    ensures Serve(Serve(db, Rows(query, 0, i), Done).0, Rows(query, i, i + 1), Done).0
            == Serve(db, Rows(query, 0, i + 1), Done).0
  {
    match query {
      case InsertDevice(rows) => assert rows[0..i] + rows[i..i + 1] == rows[0..i + 1];
      case InsertNeighbor(rows) => assert rows[0..i] + rows[i..i + 1] == rows[0..i + 1];
      case InsertRegister(rows) => assert rows[0..i] + rows[i..i + 1] == rows[0..i + 1];
    }
  }

  lemma {:induction false} OneMoreDevice(db: Db, rows: seq<DeviceRow>, row: DeviceRow)
    requires DevicesAllowed(db, rows) && DevicesAllowed(db.(device := db.device + rows), [row])
    ensures DevicesAllowed(db, rows + [row])
  {
    assert row in [row];
    forall r | r in rows ensures r.deviceId != row.deviceId { assert r in db.device + rows; }
  }

  lemma {:induction false} OneMoreNeighbor(db: Db, rows: seq<NeighborRow>, row: NeighborRow)
    requires NeighborsAllowed(db, rows) && NeighborsAllowed(db.(neighbor := db.neighbor + rows), [row])
    ensures NeighborsAllowed(db, rows + [row])
  {
    assert row in [row];
    forall r | r in rows ensures r.neighborId != row.neighborId { assert r in db.neighbor + rows; }
  }

  lemma {:induction false} OneMoreRegister(db: Db, rows: seq<RegisterRow>, row: RegisterRow)
    requires RegistersAllowed(db, rows) && RegistersAllowed(db.(registerList := db.registerList + rows), [row])
    ensures RegistersAllowed(db, rows + [row])
  {
    assert row in [row];
    forall r | r in rows ensures RegisterKey(r) != RegisterKey(row) { assert r in db.registerList + rows; }
  }

  /** Row by row the schema lets in what it lets in at once. */
  lemma {:induction false} OneMoreAllowed(db: Db, query: Query, i: nat)
    requires IsInsert(query) && i < RowCount(query)
    requires SchemaAllows(db, Rows(query, 0, i))
    requires SchemaAllows(Serve(db, Rows(query, 0, i), Done).0, Rows(query, i, i + 1))
    ensures SchemaAllows(db, Rows(query, 0, i + 1))
  {
    match query {
      case InsertDevice(rows) =>
        assert rows[i..i + 1] == [rows[i]] && rows[0..i] + [rows[i]] == rows[0..i + 1];
        OneMoreDevice(db, rows[0..i], rows[i]);
      case InsertNeighbor(rows) =>
        assert rows[i..i + 1] == [rows[i]] && rows[0..i] + [rows[i]] == rows[0..i + 1];
        OneMoreNeighbor(db, rows[0..i], rows[i]);
      case InsertRegister(rows) =>
        assert rows[i..i + 1] == [rows[i]] && rows[0..i] + [rows[i]] == rows[0..i + 1];
        OneMoreRegister(db, rows[0..i], rows[i]);
    }
  }

  lemma {:induction false} DeviceAfter(db: Db, rows: seq<DeviceRow>, i: nat)
    requires i < |rows| && DevicesAllowed(db, rows)
    ensures DevicesAllowed(db.(device := db.device + rows[0..i]), [rows[i]])
  {
    assert rows[i] in rows;
    forall r | r in db.device + rows[0..i] ensures r.deviceId != rows[i].deviceId {
      if r !in db.device { var j :| 0 <= j < i && rows[j] == r; }
    }
  }

  lemma {:induction false} NeighborAfter(db: Db, rows: seq<NeighborRow>, i: nat)
    requires i < |rows| && NeighborsAllowed(db, rows)
    ensures NeighborsAllowed(db.(neighbor := db.neighbor + rows[0..i]), [rows[i]])
  {
    assert rows[i] in rows;
    forall r | r in db.neighbor + rows[0..i] ensures r.neighborId != rows[i].neighborId {
      if r !in db.neighbor { var j :| 0 <= j < i && rows[j] == r; }
    }
  }

  lemma {:induction false} RegisterAfter(db: Db, rows: seq<RegisterRow>, i: nat)
    requires i < |rows| && RegistersAllowed(db, rows)
    ensures RegistersAllowed(db.(registerList := db.registerList + rows[0..i]), [rows[i]])
  {
    assert rows[i] in rows;
    forall r | r in db.registerList + rows[0..i] ensures RegisterKey(r) != RegisterKey(rows[i]) {
      if r !in db.registerList { var j :| 0 <= j < i && rows[j] == r; }
    }
  }

  /** If the schema lets in the whole insert, it lets in every row after the earlier ones. */
  lemma {:induction false} RowAfterAllowed(db: Db, query: Query, i: nat)
    requires IsInsert(query) && i < RowCount(query) && SchemaAllows(db, query)
    ensures SchemaAllows(Serve(db, Rows(query, 0, i), Done).0, Rows(query, i, i + 1))
  {
    match query {
      case InsertDevice(rows) =>
        assert rows[i..i + 1] == [rows[i]];
        DeviceAfter(db, rows, i);
      case InsertNeighbor(rows) =>
        assert rows[i..i + 1] == [rows[i]];
        NeighborAfter(db, rows, i);
      case InsertRegister(rows) =>
        assert rows[i..i + 1] == [rows[i]];
        RegisterAfter(db, rows, i);
    }
  }

  /** The first rows of an insert are an insert that is refused after them. */
  lemma {:induction false} InsertPart(db: Db, query: Query, i: nat)
    requires IsInsert(query) && i <= RowCount(query) && SchemaAllows(db, Rows(query, 0, i))
    ensures var o := if i < RowCount(query) then Refused(i) else Done;
            Serve(db, Rows(query, 0, i), Done).0 == Serve(db, query, o).0 && Allowed(db, query, o)
  {
    match query {
      case InsertDevice(rows) => assert i == |rows| ==> rows[0..i] == rows; assert rows[0..i] == rows[..i];
      case InsertNeighbor(rows) => assert i == |rows| ==> rows[0..i] == rows; assert rows[0..i] == rows[..i];
      case InsertRegister(rows) => assert i == |rows| ==> rows[0..i] == rows; assert rows[0..i] == rows[..i];
    }
  }

  /** The first `i` rows of an insert are in. */
  ghost predicate InsertedUpTo(start: Db, query: Query, i: nat, db: Db)
    requires IsInsert(query)
  {
    i <= RowCount(query) && SchemaAllows(start, Rows(query, 0, i)) && db == Serve(start, Rows(query, 0, i), Done).0
  }

  lemma {:induction false} NoRowsYet(start: Db, query: Query)
    requires IsInsert(query)
    ensures InsertedUpTo(start, query, 0, start)
  {
    assert start.device + [] == start.device && start.neighbor + [] == start.neighbor;
    assert start.registerList + [] == start.registerList;
  }

  lemma {:induction false} InsertGoesOn(start: Db, query: Query, i: nat)
    requires IsInsert(query) && i < RowCount(query) && SchemaAllows(start, Rows(query, 0, i))
    requires SchemaAllows(Serve(start, Rows(query, 0, i), Done).0, Rows(query, i, i + 1))
    ensures var db := Serve(start, Rows(query, 0, i), Done).0;
            InsertedUpTo(start, query, i + 1, Serve(db, Rows(query, i, i + 1), Done).0)
  {
    InsertOneMore(start, query, i);
    OneMoreAllowed(start, query, i);
  }

  /** The statement for row `i` raises; if nothing but the schema makes it raise, the schema refuses the insert. */
  lemma {:induction false} InsertStops(start: Db, query: Query, i: nat, db: Db, strict: bool) returns (o: Outcome)
    requires IsInsert(query) && i < RowCount(query) && InsertedUpTo(start, query, i, db)
    requires strict ==> !SchemaAllows(db, Rows(query, i, i + 1))
    ensures (db, None) == DbProc(start, query, o) && Allowed(start, query, o)
    ensures strict ==> Willing(start, query, o)
  {
    o := Refused(i);
    InsertPart(start, query, i);
    if SchemaAllows(start, query) { RowAfterAllowed(start, query, i); }
  }

  lemma {:induction false} InsertEnds(start: Db, query: Query, db: Db) returns (o: Outcome)
    requires IsInsert(query) && InsertedUpTo(start, query, RowCount(query), db)
    ensures (db, Some(Reply(0, NoData))) == DbProc(start, query, o)
    ensures Allowed(start, query, o) && Willing(start, query, o)
  {
    o := Done;
    InsertPart(start, query, RowCount(query));
  }
}
