/** The broker version of the FlexID manager, statement by statement. The database round trip of
    `SendDBquery` is the synchronous one of `Refinement.RoundTripIsDirectCall`; how the database
    fares is left open as far as the schema allows. */
module Manager {
  import opened Wrappers
  import opened Decimal
  import opened Flags
  import opened Probe
  import opened Tables
  import opened Queries
  import opened Requests
  import opened Batch
  import opened Topics
  import opened World
  import opened JoinId

  class FlexManager {
    var deviceCache: map<string, Mark>
    var dbQueryCache: map<QueryId, Slot>
    var db: Db // the remote database
    var published: seq<Ack>
    const reliable: bool // whether the database answers every query and refuses only what the schema forbids

    /** The manager starts with empty caches, on whatever tables the database has. */
    constructor (tables: Db, reliable: bool)
      ensures View() == World(map[], map[], tables, []) && this.reliable == reliable
    {
      deviceCache, dbQueryCache, db, published := map[], map[], tables, [];
      this.reliable := reliable;
    }

    function View(): World
      reads this
    {
      World(deviceCache, dbQueryCache, db, published)
    }

    /** The remote database takes a query from its topic and publishes a reply. */
    method DatabaseServes(query: Query) returns (reply: Reply, ghost o: Outcome)
      modifies this`db
      ensures (db, reply) == Serve(old(db), query, o)
      ensures Allowed(old(db), query, o) && (reliable ==> Willing(old(db), query, o))
    {
      var chosen: Outcome := *;
      AllowedOutcomes(db, query);
      var outcome := if reliable && SchemaAllows(db, query) then Done
                     else if Allowed(db, query, chosen) then chosen
                     else Refused(0);
      var (tables, answer) := Serve(db, query, outcome);
      db, reply, o := tables, answer, outcome;
    }

    /** `on_db_message`, on the thread of the database client: store the reply under its query id. */
    method OnDbMessage(queryID: QueryId, payload: Reply)
      modifies this`dbQueryCache
      ensures dbQueryCache == old(dbQueryCache)[queryID := Settled(payload)]
    {
      dbQueryCache := dbQueryCache[queryID := Settled(payload)];
    }

    /** Send a query and wait for the reply. Needs an unused id: the source draws until it finds one. */
    method SendDBquery(query: Query) returns (queryID: QueryId, ghost o: Outcome)
      requires |dbQueryCache| < ID_SPACE
      modifies this`dbQueryCache, this`db
      ensures queryID !in old(dbQueryCache)
      ensures View() == RoundTrip(old(View()), query, o, queryID, true)
      ensures Allowed(old(db), query, o) && (reliable ==> Willing(old(db), query, o))
    {
      UnusedIds(dbQueryCache);
      queryID :| queryID !in dbQueryCache;
      dbQueryCache := dbQueryCache[queryID := Empty];
      var reply;
      reply, o := DatabaseServes(query);
      OnDbMessage(queryID, reply);
    }

    /** A select whose answer is only looked at for being empty: send it, read the slot, delete the
        slot. */
    method Select(query: Query) returns (found: bool, queryID: QueryId, ghost o: Outcome)
      requires |dbQueryCache| < ID_SPACE
      requires query.SelectDevice? || query.SelectRegister? || query.SelectNothing?
      modifies this`dbQueryCache, this`db
      ensures View() == old(View())
      ensures queryID !in dbQueryCache
      ensures query.SelectDevice? ==> found == (o.Done? && query.deviceId in DeviceIds(db))
      ensures query.SelectRegister? ==> found == (o.Done? && query.providingId in ProvidingIds(db))
      ensures query.SelectNothing? ==> found == (o.Done? && Truthy(query.answer))
      ensures reliable ==> o.Done?
    {
      queryID, o := SendDBquery(query);
      found := Truthy(dbQueryCache[queryID].reply.data);
      dbQueryCache := dbQueryCache - {queryID};
      if !query.SelectNothing? {
        SelectFinds(db, if query.SelectDevice? then query.deviceId else query.providingId, o);
      }
    }

    /** The pattern of `leave`, `register` and `update`: send a statement, raise on an error reply,
        otherwise delete the slot. The slot of a failed statement stays. */
    method Execute(query: Query) returns (ok: bool, ghost queryID: QueryId, ghost o: Outcome)
      requires |dbQueryCache| < ID_SPACE
      requires query.DeleteDevice? || query.InsertRegister? || query.DeleteRegister? || query.UpdateRegister?
      modifies this`dbQueryCache, this`db
      ensures queryID !in old(dbQueryCache)
      ensures View() == RoundTrip(old(View()), query, o, queryID, o.Refused?)
      ensures ok == o.Done?
      ensures Allowed(old(db), query, o) && (reliable ==> Willing(old(db), query, o))
    {
      var id;
      id, o := SendDBquery(query);
      queryID := id;
      ok := dbQueryCache[id].reply.error == 0;
      if ok {
        dbQueryCache := dbQueryCache - {id};
        assert dbQueryCache == old(dbQueryCache);
      }
    }

    /** The inner loop of `join_genID`: raise the flag past the cached identifiers, then reserve. */
    method ProbeCache(base: string, flag: nat) returns (newID: string, f: nat, ghost i: nat)
      modifies this`deviceCache
      ensures f == flag + COLLISION_INC * i && newID == Candidate(BaseFirst, base, flag, i)
      ensures LeastFree(BaseFirst, base, flag, old(deviceCache).Keys, i)
      ensures deviceCache == old(deviceCache)[newID := Reserved]
    {
      f, i := flag, 0;
      newID := base + Str(f);
      while newID in deviceCache
        invariant f == flag + COLLISION_INC * i && newID == Candidate(BaseFirst, base, flag, i)
        invariant forall j :: 0 <= j < i ==> Candidate(BaseFirst, base, flag, j) in deviceCache
        invariant deviceCache == old(deviceCache)
        decreases Ahead(BaseFirst, base, f, deviceCache.Keys)
      {
        AheadShrinks(BaseFirst, base, f, deviceCache.Keys);
        f, i := f + COLLISION_INC, i + 1;
        newID := base + Str(f);
      }
      deviceCache := deviceCache[newID := Reserved];
    }

    /** One activation of `join_genID` up to its decision: reserve the first uncached candidate, ask
        the database about it, confirm the reservation. */
    method ReserveAndAsk(base: string, flag: nat)
        returns (newID: string, f: nat, exist: bool, ghost i: nat, ghost answered: bool)
      requires |dbQueryCache| < ID_SPACE
      modifies this`deviceCache, this`dbQueryCache, this`db
      ensures f == flag + COLLISION_INC * i && newID == Candidate(BaseFirst, base, flag, i)
      ensures LeastFree(BaseFirst, base, flag, old(deviceCache).Keys, i)
      ensures exist == (answered && newID in DeviceIds(db)) && (reliable ==> answered)
      ensures deviceCache == old(deviceCache)[newID := Confirmed]
      ensures dbQueryCache == old(dbQueryCache) && db == old(db)
    {
      newID, f, i := ProbeCache(base, flag);
      var found, _, o := Select(SelectDevice(newID));
      exist, answered := found, o.Done?;
      deviceCache := deviceCache[newID := Confirmed];
    }

    /** `join_genID`: candidate `k` is the first one that neither the cache at the start of the call
        nor the Device table has, although the cache grows during the recursion. The depth of the
        recursion, one level for every collision with the table, has no bound here. */
    method JoinGenID(base: string, flag: nat) returns (newID: string, ghost k: nat, ghost answered: bool)
      requires |dbQueryCache| < ID_SPACE
      modifies this`deviceCache, this`dbQueryCache, this`db
      ensures newID == Candidate(BaseFirst, base, flag, k)
      ensures GeneratedAt(BaseFirst, old(deviceCache), db, base, flag, k, answered)
      ensures deviceCache == Marked(old(deviceCache), Tried(BaseFirst, base, flag, k))
      ensures dbQueryCache == old(dbQueryCache) && db == old(db)
      ensures reliable ==> answered
      decreases DeviceIds(db) - deviceCache.Keys
    {
      var f, exist;
      ghost var i;
      newID, f, exist, i, answered := ReserveAndAsk(base, flag);
      ghost var start := old(deviceCache);
      if !exist {
        k := i;
        FoundAtOnce(BaseFirst, start, db, base, flag, i, answered);
      } else {
        FewerUncached(start, DeviceIds(db), newID);
        ghost var k';
        newID, k', answered := JoinGenID(base, f + COLLISION_INC);
        k := i + 1 + k';
        FoundLater(BaseFirst, start, db, base, flag, i, k', answered);
      }
    }

    /** "Check whether the device exists": the same lines in `register`, `update` and `query`. */
    method CheckDevice(deviceID: string) returns (exist: bool, q: QueryId, ghost o: Outcome)
      requires |dbQueryCache| < ID_SPACE
      modifies this`deviceCache, this`dbQueryCache, this`db
      ensures exist == DeviceOk(old(View()), deviceID, o)
      ensures View() == Checked(old(View()), deviceID, o)
      ensures reliable ==> o.Done?
    {
      if deviceID in deviceCache {
        q, o := 0, Done;
        exist := true;
      } else {
        exist, q, o := Select(SelectDevice(deviceID));
        if exist {
          deviceCache := deviceCache[deviceID := Confirmed];
        }
      }
    }

    /** `register_genID`: candidate `k` is the first that is not in RegisterList. */
    method RegisterGenID(hash: string, flag: nat) returns (newID: string, ghost k: nat, ghost answered: bool)
      requires |dbQueryCache| < ID_SPACE
      modifies this`dbQueryCache, this`db
      ensures View() == old(View())
      ensures newID == Candidate(BaseFirst, hash, flag, k)
      ensures forall j :: 0 <= j < k ==> Candidate(BaseFirst, hash, flag, j) in ProvidingIds(db)
      ensures answered ==> newID !in ProvidingIds(db)
      ensures reliable ==> answered
      decreases Ahead(BaseFirst, hash, flag, ProvidingIds(db))
    {
      newID := hash + Str(flag);
      assert newID == Candidate(BaseFirst, hash, flag, 0);
      var exist, _, o := Select(SelectRegister(newID));
      if !exist {
        k, answered := 0, o.Done?;
      } else {
        AheadShrinks(BaseFirst, hash, flag, ProvidingIds(db));
        ghost var k';
        newID, k', answered := RegisterGenID(hash, flag + COLLISION_INC);
        k := 1 + k';
        ShiftedProbes(BaseFirst, hash, flag, flag + COLLISION_INC, ProvidingIds(db), k');
      }
    }

    /** The identifier of one item: its hash with its flag, probed on if it avoids collisions. */
    method GenerateID(item: Item) returns (newID: string, ghost k: nat, ghost failed: set<nat>)
      requires ItemOk(item)
      requires |dbQueryCache| < ID_SPACE
      modifies this`dbQueryCache, this`db
      ensures View() == old(View())
      ensures newID == ItemId(BaseFirst, item, k)
      ensures ProbesRight(BaseFirst, item, ProvidingIds(db), k, failed)
      ensures reliable ==> failed == {}
    {
      var flag := GenFlag(item.cacheBit, item.segment, 0).value;
      if item.collisionAvoid {
        ghost var answered;
        newID, k, answered := RegisterGenID(item.hash.value, flag);
        failed := if answered then {} else {k};
      } else {
        newID, k, failed := item.hash.value + Str(flag), 0, {};
      }
    }

    /** The row of one item, with the first `n` of the attributes collected so far. */
    method MakeRow(deviceID: string, item: Item, attrList: seq<string>, n: nat)
        returns (row: RegisterRow, ghost k: nat, ghost failed: set<nat>)
      requires ItemOk(item) && n <= |attrList|
      requires |dbQueryCache| < ID_SPACE
      modifies this`dbQueryCache, this`db
      ensures View() == old(View())
      ensures ProbesRight(BaseFirst, item, ProvidingIds(db), k, failed) && (reliable ==> failed == {})
      ensures row == RegisterRow(deviceID, ItemId(BaseFirst, item, k), item.hash.value, item.registerType,
                                 item.category, AttrMap(attrList[..n]))
    {
      var newID;
      newID, k, failed := GenerateID(item);
      var columns := AttrColumns(attrList, n);
      row := RegisterRow(deviceID, newID, item.hash.value, item.registerType, item.category, columns);
    }

    /** The item loop of `register`; `ok` is false when a missing field raises. */
    method BuildBatch(deviceID: string, items: seq<Item>)
        returns (ok: bool, idList: seq<(string, string)>, regList: seq<RegisterRow>, ghost b: Built)
      requires |dbQueryCache| < ID_SPACE
      modifies this`dbQueryCache, this`db
      ensures View() == old(View())
      ensures ok == forall item :: item in items ==> ItemOk(item)
      ensures ok ==>
                && BatchBuilt(BaseFirst, Running, deviceID, items, ProvidingIds(db), b)
                && b.idList == idList && b.rows == regList
      ensures reliable ==> AllAnswered(b)
    {
      ghost var taken := ProvidingIds(db);
      var attrList: seq<string> := [];
      ok, idList, regList, b := true, [], [], Built([], [], [], []);
      for i := 0 to |items|
        invariant View() == old(View())
        invariant attrList == Gathered(items[..i])
        invariant forall x :: 0 <= x < i ==> ItemOk(items[x])
        invariant |b.idList| == |b.rows| == |b.probes| == |b.failed| == i
        invariant forall x :: 0 <= x < i ==> RowBuilt(BaseFirst, Running, deviceID, items, taken, b, x)
        invariant ok && b.idList == idList && b.rows == regList
        invariant reliable ==> AllAnswered(b)
      {
        var item := items[i];
        assert item in items;
        if item.attributes.None? {
          return false, idList, regList, b;
        }
        var attrIdx;
        attrList, attrIdx := Collect(attrList, item.attributes.value);
        assert items[..i + 1][..i] == items[..i];
        if item.hash.None? || item.index.None? {
          return false, idList, regList, b;
        }
        var row, k, failed := MakeRow(deviceID, item, attrList, attrIdx);
        var announced := (item.index.value, row.providingId);
        RowAdded(BaseFirst, Running, deviceID, items, taken, b, announced, row, k, failed);
        idList := idList + [announced];
        regList := regList + [row];
        b := Built(idList, regList, b.probes + [k], b.failed + [failed]);
      }
    }

    method Publish(kind: Kind, tempID: string, body: AckBody)
      modifies this`published
      ensures published == old(published) + [Ack(AckTopic(kind, tempID), body)]
    {
      published := published + [Ack(AckTopic(kind, tempID), body)];
    }

    /** The `try` block of `join`; `id` is `None` when something raises. */
    method TryJoin(tempID: string, p: Payload) returns (id: Option<string>, ghost t: Trace)
      requires |dbQueryCache| + 2 <= ID_SPACE
      modifies this`deviceCache, this`dbQueryCache, this`db
      ensures JoinLegal(old(View()), tempID, p, t)
      ensures reliable ==> Served(JoinRequest, old(View()), tempID, p, t)
      ensures JoinHandle(old(View()), tempID, p, t) ==
                (View(), if id.Some? then JoinDone(id.value, p.relay) else JoinFailed(tempID, p.relay))
    {
      t := JoinTrace(0, true, 0, Done, 0, Done);
      var base := Requester(tempID, p.relay);
      if base.None? {
        return None, t;
      }
      var newID;
      ghost var k, answered;
      newID, k, answered := JoinGenID(base.value, 0);
      t := JoinTrace(k, answered, 0, Done, 0, Done);
      var ok, infoList := DeviceInfo(newID, p);
      if !ok {
        return None, t;
      }
      var q1;
      ghost var o1;
      q1, o1 := SendDBquery(InsertDevice(infoList));
      t := JoinTrace(k, answered, q1, o1, 0, Done);
      if dbQueryCache[q1].reply.error != 0 {
        return None, t;
      }
      var fine, neighborList := NeighborInfo(newID, p);
      if !fine {
        return None, t;
      }
      var q2;
      ghost var o2;
      q2, o2 := SendDBquery(InsertNeighbor(neighborList));
      t := JoinTrace(k, answered, q1, o1, q2, o2);
      id := if dbQueryCache[q2].reply.error != 0 then None else Some(newID);
    }

    method Join(tempID: string, p: Payload) returns (ghost t: Trace)
      requires |dbQueryCache| + 2 <= ID_SPACE
      modifies this
      ensures Effect(JoinRequest, old(View()), tempID, p, t, View())
      ensures reliable ==> Served(JoinRequest, old(View()), tempID, p, t)
    {
      var id;
      id, t := TryJoin(tempID, p);
      Publish(JoinRequest, tempID, if id.Some? then JoinDone(id.value, p.relay) else JoinFailed(tempID, p.relay));
    }

    method Leave(tempID: string, p: Payload) returns (ghost t: Trace)
      requires |dbQueryCache| + 2 <= ID_SPACE
      modifies this
      ensures Effect(LeaveRequest, old(View()), tempID, p, t, View())
      ensures reliable ==> Served(LeaveRequest, old(View()), tempID, p, t)
    {
      t := LeaveTrace(0, Done);
      var error := 1;
      var deviceID := Requester(tempID, p.relay);
      if deviceID.Some? {
        var ok, q, o := Execute(DeleteDevice(deviceID.value));
        t := LeaveTrace(q, o);
        if ok && deviceID.value in deviceCache { // `del` raises KeyError when the key is missing
          deviceCache := deviceCache - {deviceID.value};
          error := 0;
        }
      }
      Publish(LeaveRequest, tempID, LeaveAck(error, p.relay));
    }

    method TryRegister(tempID: string, p: Payload) returns (idList: Option<seq<(string, string)>>, ghost t: Trace)
      requires |dbQueryCache| + 2 <= ID_SPACE
      modifies this`deviceCache, this`dbQueryCache, this`db
      ensures RegisterLegal(old(View()), tempID, p, t)
      ensures reliable ==> Served(RegisterRequest, old(View()), tempID, p, t)
      ensures RegisterHandle(old(View()), tempID, p, t) ==
                (View(), if idList.Some? then RegisterDone(p.registerID, idList.value, p.relay)
                         else RegisterFailed(p.registerID, p.relay))
    {
      t := RegisterTrace(Done, Built([], [], [], []), 0, Done);
      var deviceID := Requester(tempID, p.relay);
      if deviceID.None? {
        return None, t;
      }
      var exist, _, check := CheckDevice(deviceID.value);
      t := RegisterTrace(check, Built([], [], [], []), 0, Done);
      if !exist || p.registerList.None? {
        return None, t;
      }
      var ok, ids, regList, b := BuildBatch(deviceID.value, p.registerList.value);
      if !ok {
        return None, t;
      }
      var inserted, q, o := Execute(InsertRegister(regList));
      t := RegisterTrace(check, b, q, o);
      idList := if inserted then Some(ids) else None;
    }

    method Register(tempID: string, p: Payload) returns (ghost t: Trace)
      requires |dbQueryCache| + 2 <= ID_SPACE
      modifies this
      ensures Effect(RegisterRequest, old(View()), tempID, p, t, View())
      ensures reliable ==> Served(RegisterRequest, old(View()), tempID, p, t)
    {
      var ids;
      ids, t := TryRegister(tempID, p);
      Publish(RegisterRequest, tempID,
              if ids.Some? then RegisterDone(p.registerID, ids.value, p.relay)
              else RegisterFailed(p.registerID, p.relay));
    }

    method TryUpdate(tempID: string, p: Payload) returns (error: int, ghost t: Trace)
      requires |dbQueryCache| + 2 <= ID_SPACE
      modifies this`deviceCache, this`dbQueryCache, this`db
      ensures UpdateLegal(old(View()), tempID, p, t)
      ensures reliable ==> Served(UpdateRequest, old(View()), tempID, p, t)
      ensures UpdateHandle(old(View()), tempID, p, t) == (View(), UpdateAck(error, p.updateID, p.relay))
    {
      t := UpdateTrace(Done, Done, NoData, 0, Done);
      error := 1;
      var deviceID := Requester(tempID, p.relay);
      if deviceID.None? {
        return;
      }
      var exist, _, check := CheckDevice(deviceID.value);
      t := UpdateTrace(check, Done, NoData, 0, Done);
      if !exist {
        return;
      }
      var answer: Data := *;
      var found, _, content := Select(SelectNothing(answer));
      t := UpdateTrace(check, content, answer, 0, Done);
      if !found || (!p.deregister && p.attributes.None?) {
        return;
      }
      var query := UpdateStatement(p);
      var ok, q, o := Execute(query);
      t := UpdateTrace(check, content, answer, q, o);
      error := if ok then 0 else 1;
    }

    method Update(tempID: string, p: Payload) returns (ghost t: Trace)
      requires |dbQueryCache| + 2 <= ID_SPACE
      modifies this
      ensures Effect(UpdateRequest, old(View()), tempID, p, t, View())
      ensures reliable ==> Served(UpdateRequest, old(View()), tempID, p, t)
    {
      var error;
      error, t := TryUpdate(tempID, p);
      Publish(UpdateRequest, tempID, UpdateAck(error, p.updateID, p.relay));
    }

    method Query(tempID: string, p: Payload) returns (ghost t: Trace)
      requires |dbQueryCache| + 2 <= ID_SPACE
      modifies this
      ensures Effect(QueryRequest, old(View()), tempID, p, t, View())
      ensures reliable ==> Served(QueryRequest, old(View()), tempID, p, t)
    {
      t := QueryTrace(Done, 0, 0);
      var queryID := Asked(p.queryID);
      var error := 1;
      var deviceID := Requester(tempID, p.relay);
      if deviceID.Some? {
        var cached := deviceID.value in deviceCache;
        var exist, q1, check := CheckDevice(deviceID.value);
        t := QueryTrace(check, q1, 0);
        if !cached {
          queryID := Internal(q1); // the variable is used for the database query as well
        }
        if exist && p.qosRequirements.Some? {
          var _, q2, _ := Select(SelectDevice(deviceID.value));
          t := QueryTrace(check, q1, q2);
          queryID := Internal(q2);
          error := 0;
        }
      }
      Publish(QueryRequest, tempID, QueryAck(error, queryID, p.relay));
    }

    /** `on_message`. A body that is no JSON object raises outside every `try`. */
    method OnMessage(topic: string, body: Option<Payload>) returns (ghost t: Trace)
      requires |dbQueryCache| + 2 <= ID_SPACE
      modifies this
      ensures MessageEffect(Message(topic, body), old(View()), t, View())
      ensures reliable ==> MessageServed(Message(topic, body), old(View()), t)
    {
      t := NoTrace;
      var route := Route(topic);
      if route.Some? && body.Some? {
        var (kind, deviceID) := route.value;
        match kind {
          case JoinRequest => t := Join(deviceID, body.value);
          case LeaveRequest => t := Leave(deviceID, body.value);
          case RegisterRequest => t := Register(deviceID, body.value);
          case UpdateRequest => t := Update(deviceID, body.value);
          case QueryRequest => t := Query(deviceID, body.value);
        }
      }
    }
  }

  /** The statement of `update`: delete the entry, or set its attribute columns. */
  method UpdateStatement(p: Payload) returns (query: Query)
    requires p.deregister || p.attributes.Some?
    ensures query == UpdateQuery(p)
  {
    if p.deregister {
      query := DeleteRegister(p.id.GetOr("None"));
    } else {
      var attrList, n := Collect([], p.attributes.value);
      var columns := AttrColumns(attrList, n);
      assert attrList[..n] == p.attributes.value;
      query := UpdateRegister(p.id.GetOr("None"), columns);
    }
  }

  /** The loop over the interfaces of a joining device. */
  method DeviceInfo(id: string, p: Payload) returns (ok: bool, infoList: seq<DeviceRow>)
    ensures ok == CodesOk(p)
    ensures ok ==> infoList == DeviceRows(id, p)
  {
    infoList := [];
    if p.uniqueCodes.None? {
      return false, infoList;
    }
    var codes := p.uniqueCodes.value;
    for i := 0 to |codes|
      invariant |infoList| == i
      invariant forall x :: 0 <= x < i ==> codes[x].hwAddress.Some? && infoList[x] == DeviceRowOf(id, p, codes[x])
    {
      var c := codes[i];
      assert c in codes;
      if c.hwAddress.None? {
        return false, infoList;
      }
      infoList := infoList + [DeviceRow(id, p.relay, p.pubKey, c.ifaceType.GetOr("NULL"), c.hwAddress.value,
                                        c.ipv4.GetOr("NULL"), c.wifiSSID.GetOr("NULL"))];
    }
    ok := true;
  }

  /** The loop over the neighbors of a joining device. */
  method NeighborInfo(id: string, p: Payload) returns (ok: bool, neighborList: seq<NeighborRow>)
    ensures ok == NeighborsOk(p)
    ensures ok ==> neighborList == NeighborRows(id, p)
  {
    neighborList := [];
    if p.neighbors.None? {
      return false, neighborList;
    }
    var neighbors := p.neighbors.value;
    for i := 0 to |neighbors|
      invariant |neighborList| == i
      invariant forall x :: 0 <= x < i ==>
                  && neighbors[x].neighborFlexID.Some? && neighbors[x].neighborFlexID.value != "none"
                  && neighborList[x] == NeighborRowOf(id, neighbors[x])
    {
      var n := neighbors[i];
      assert n in neighbors;
      if n.neighborFlexID.None? || n.neighborFlexID.value == "none" {
        return false, neighborList;
      }
      neighborList := neighborList + [NeighborRow(OrNull(n.neighborIface), OrNull(n.neighborIpv4),
                                                  OrNull(n.neighborHwAddress), n.neighborFlexID.value, id)];
    }
    ok := true;
  }
}
