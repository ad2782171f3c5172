/** The broker version of the manager refines the local one: with one request thread, whatever
    the handlers read through messages is what direct calls to the database would have returned,
    in the same order and on the same tables. */
module Refinement {
  import opened Wrappers
  import opened Tables
  import opened Queries
  import opened Broker
  import W = World

  /** A query that the database serves on its own, with how it fares. */
  datatype DirectCall = DirectCall(query: Query, outcome: Outcome)

  /** The tables after queries served one by one. */
  function TablesAfter(db: Db, calls: seq<DirectCall>): Db {
    if calls == [] then db
    else
      var last := calls[|calls| - 1];
      Serve(TablesAfter(db, calls[..|calls| - 1]), last.query, last.outcome).0
  }

  /** The replies to queries served one by one, in order. */
  function Replies(db: Db, calls: seq<DirectCall>): seq<(Query, Reply)> {
    if calls == [] then []
    else
      var last := calls[|calls| - 1];
      var earlier := calls[..|calls| - 1];
      Replies(db, earlier) + [(last.query, Serve(TablesAfter(db, earlier), last.query, last.outcome).1)]
  }

  /** Every query fares in a way that the schema allows on the tables it finds. */
  predicate CallsAllowed(db: Db, calls: seq<DirectCall>) {
    calls == [] ||
    var last := calls[|calls| - 1];
    var earlier := calls[..|calls| - 1];
    CallsAllowed(db, earlier) && Allowed(TablesAfter(db, earlier), last.query, last.outcome)
  }

  lemma {:induction false} OneMoreCall(db: Db, calls: seq<DirectCall>, c: DirectCall)
    ensures TablesAfter(db, calls + [c]) == Serve(TablesAfter(db, calls), c.query, c.outcome).0
    ensures Replies(db, calls + [c]) ==
              Replies(db, calls) + [(c.query, Serve(TablesAfter(db, calls), c.query, c.outcome).1)]
    ensures CallsAllowed(db, calls + [c])
            <==> CallsAllowed(db, calls) && Allowed(TablesAfter(db, calls), c.query, c.outcome)
  {
    assert (calls + [c])[..|calls|] == calls;
  }

  /** The manager has one client network thread, so one handler at a time. */
  ghost predicate OneThread(run: seq<Sys>, h: Handler) {
    forall x, g :: 0 <= x < |run| && g in run[x].calls ==> g == h
  }

  ghost predicate InRoundTrip(s: Sys, h: Handler) {
    h in s.calls && s.calls[h].Waiting?
  }

  /** The state of the broker version against the finished direct calls. During a round trip,
      `served` tells whether the database has already done its part. */
  ghost predicate Matches(s: Sys, h: Handler, db: Db, calls: seq<DirectCall>, served: Option<Outcome>) {
    && s.read == Replies(db, calls) && CallsAllowed(db, calls)
    && (!InRoundTrip(s, h) ==> served.None? && s.db == TablesAfter(db, calls))
    && (InRoundTrip(s, h) ==>
          var Waiting(id, q) := s.calls[h];
          if served.None? then
            s.db == TablesAfter(db, calls) && Unanswered(s, id) && forall a :: a in s.answers ==> a.id != id
          else
            var (db', reply) := Serve(TablesAfter(db, calls), q, served.value);
            && s.db == db' && Allowed(TablesAfter(db, calls), q, served.value)
            && (forall a :: a in s.asks ==> a.id != id)
            && (forall a :: a in s.answers && a.id == id ==> a.reply == reply)
            && id in s.slots && (s.slots[id].Settled? ==> s.slots[id].reply == reply))
  }

  lemma {:induction false} MatchStep(s: Sys, step: Step, s': Sys, h: Handler, db: Db, calls: seq<DirectCall>,
                                     served: Option<Outcome>)
      returns (calls': seq<DirectCall>, served': Option<Outcome>)
    requires Inv(s) && Next(s, step, s') && Matches(s, h, db, calls, served)
    requires forall g :: g in s.calls || g in s'.calls ==> g == h
    ensures Matches(s', h, db, calls', served')
    ensures calls' == calls
            || (step == Return(h) && served.Some? && calls' == calls + [DirectCall(s.calls[h].query, served.value)])
  {
    calls', served' := calls, served;
    if step.ServeAsk? {
      assert Awaits(s, step.ask.sender, step.ask.id, step.ask.query);
      served' := Some(step.outcome);
    } else if step.Return? {
      OneMoreCall(db, calls, DirectCall(s.calls[h].query, served.value));
      calls', served' := calls + [DirectCall(s.calls[h].query, served.value)], None;
    }
  }

  lemma {:induction false} StartMatches(s: Sys, h: Handler)
    requires Init(s)
    ensures Matches(s, h, s.db, [], None)
  {
  }

  lemma {:induction false} SimulationStep(run: seq<Sys>, steps: seq<Step>, h: Handler, m: nat, db: Db,
                                          calls: seq<DirectCall>, served: Option<Outcome>)
      returns (calls': seq<DirectCall>, served': Option<Outcome>)
    requires IsRun(run, steps) && OneThread(run, h) && m < |steps| && Matches(run[m], h, db, calls, served)
    ensures Matches(run[m + 1], h, db, calls', served')
  {
    AlwaysCorrelated(run, steps, m);
    calls', served' := MatchStep(run[m], steps[m], run[m + 1], h, db, calls, served);
  }

  lemma {:induction false} Simulation(run: seq<Sys>, steps: seq<Step>, h: Handler, n: nat)
      returns (calls: seq<DirectCall>, served: Option<Outcome>)
    requires IsRun(run, steps) && OneThread(run, h) && n < |run|
    ensures Matches(run[n], h, run[0].db, calls, served)
  {
    if n == 0 {
      calls, served := [], None;
      StartMatches(run[0], h);
    } else {
      calls, served := Simulation(run, steps, h, n - 1);
      calls, served := SimulationStep(run, steps, h, n - 1, run[0].db, calls, served);
    }
  }

  /** Over whole runs, losses included, messages amount to queries of any kind served one by one: from the
      same tables they give exactly the replies the handlers have read so far, in order, and leave exactly
      the present tables whenever no round trip is under way. */
  lemma {:induction false} BrokerIsSequential(run: seq<Sys>, steps: seq<Step>, h: Handler, n: nat)
      returns (calls: seq<DirectCall>)
    requires IsRun(run, steps) && OneThread(run, h) && n < |run|
    ensures CallsAllowed(run[0].db, calls) && run[n].read == Replies(run[0].db, calls)
    ensures !InRoundTrip(run[n], h) ==> run[n].db == TablesAfter(run[0].db, calls)
  {
    var served;
    calls, served := Simulation(run, steps, h, n);
  }

  // ---------- the local version ----------

  ghost predicate OnlyDbProc(calls: seq<DirectCall>) {
    forall c :: c in calls ==> InDbProc(c.query)
  }

  /** The tables after a sequence of `db_proc` calls. */
  ghost function LocalDb(db: Db, calls: seq<DirectCall>): Db
    requires OnlyDbProc(calls)
  {
    if calls == [] then db
    else
      var last := calls[|calls| - 1];
      DbProc(LocalDb(db, calls[..|calls| - 1]), last.query, last.outcome).0
  }

  /** What each call returned, in order; `None` for one that raised. */
  ghost function LocalLog(db: Db, calls: seq<DirectCall>): seq<Option<Reply>>
    requires OnlyDbProc(calls)
  {
    if calls == [] then []
    else
      var last := calls[|calls| - 1];
      var earlier := calls[..|calls| - 1];
      LocalLog(db, earlier) + [DbProc(LocalDb(db, earlier), last.query, last.outcome).1]
  }

  /** A reply read by the broker version against the local call: it has error 0 exactly where the call
      returns, and is then what the call returns; where the call raises it is a bare error. */
  predicate Corresponds(reply: Reply, returned: Option<Reply>) {
    && (returned.Some? <==> reply.error == 0)
    && (returned.Some? ==> reply == returned.value)
    && (returned.None? ==> reply == Reply(1, NoData))
  }

  lemma {:induction false} ServedAsCalled(db: Db, q: Query, o: Outcome)
    requires InDbProc(q)
    ensures DbProc(db, q, o).0 == Serve(db, q, o).0 && Corresponds(Serve(db, q, o).1, DbProc(db, q, o).1)
  {
  }

  /** Queries served one by one against the same queries as calls of `db_proc`. */
  lemma {:induction false} RepliesCorrespond(db: Db, calls: seq<DirectCall>)
    requires OnlyDbProc(calls)
    ensures LocalDb(db, calls) == TablesAfter(db, calls)
    ensures |LocalLog(db, calls)| == |Replies(db, calls)| == |calls|
    ensures forall i :: 0 <= i < |calls| ==>
              Replies(db, calls)[i].0 == calls[i].query && Corresponds(Replies(db, calls)[i].1, LocalLog(db, calls)[i])
  {
    if calls != [] {
      var last, earlier := calls[|calls| - 1], calls[..|calls| - 1];
      assert last in calls && forall c :: c in earlier ==> c in calls;
      RepliesCorrespond(db, earlier);
      ServedAsCalled(TablesAfter(db, earlier), last.query, last.outcome);
    }
  }

  /** The manager sends no queries but inserts and selects. */
  ghost predicate SendsOnlyDbProc(steps: seq<Step>) {
    forall i :: 0 <= i < |steps| && steps[i].Send? ==> InDbProc(steps[i].query)
  }

  ghost predicate QueriesInDbProc(s: Sys) {
    && (forall h :: h in s.calls && s.calls[h].Waiting? ==> InDbProc(s.calls[h].query))
    && (forall r :: r in s.read ==> InDbProc(r.0))
  }

  lemma {:induction false} AlwaysInDbProc(run: seq<Sys>, steps: seq<Step>, n: nat)
    requires IsRun(run, steps) && SendsOnlyDbProc(steps) && n < |run|
    ensures QueriesInDbProc(run[n])
  {
    if n > 0 {
      AlwaysInDbProc(run, steps, n - 1);
      StepInDbProc(run[n - 1], steps[n - 1], run[n]);
    }
  }

  lemma {:induction false} StepInDbProc(s: Sys, step: Step, s': Sys)
    requires QueriesInDbProc(s) && Next(s, step, s') && (step.Send? ==> InDbProc(step.query))
    ensures QueriesInDbProc(s')
  {
  }

  lemma {:induction false} QueriesOfReplies(db: Db, calls: seq<DirectCall>)
    requires forall r :: r in Replies(db, calls) ==> InDbProc(r.0)
    ensures OnlyDbProc(calls)
  {
    if calls != [] {
      var last, earlier := calls[|calls| - 1], calls[..|calls| - 1];
      var reply := (last.query, Serve(TablesAfter(db, earlier), last.query, last.outcome).1);
      assert Replies(db, calls) == Replies(db, earlier) + [reply];
      assert reply in Replies(db, calls) && forall r :: r in Replies(db, earlier) ==> r in Replies(db, calls);
      QueriesOfReplies(db, earlier);
      assert calls == earlier + [last];
    }
  }

  /** Refinement: a run of the one-thread broker version that sends inserts and selects, the kinds of query
      the local version has, is a sequence of calls of the local `db_proc` on the same tables. Each
      reply read corresponds to what its call returns, or to its raising, and the tables are the same
      whenever no round trip is under way. */
  lemma {:induction false} BrokerRefinesLocal(run: seq<Sys>, steps: seq<Step>, h: Handler, n: nat)
      returns (calls: seq<DirectCall>)
    requires IsRun(run, steps) && OneThread(run, h) && n < |run| && SendsOnlyDbProc(steps)
    ensures OnlyDbProc(calls) && CallsAllowed(run[0].db, calls)
    ensures |LocalLog(run[0].db, calls)| == |calls| == |run[n].read|
    ensures forall i :: 0 <= i < |calls| ==>
              && run[n].read[i].0 == calls[i].query
              && Corresponds(run[n].read[i].1, LocalLog(run[0].db, calls)[i])
    ensures !InRoundTrip(run[n], h) ==> run[n].db == LocalDb(run[0].db, calls)
  {
    calls := BrokerIsSequential(run, steps, h, n);
    AlwaysInDbProc(run, steps, n);
    QueriesOfReplies(run[0].db, calls);
    RepliesCorrespond(run[0].db, calls);
  }

  /** While `h` waits, nothing but the slot it waits on changes in `dbQuery_cache`. */
  lemma {:induction false} OtherSlotsStay(run: seq<Sys>, steps: seq<Step>, i: nat, m: nat, h: Handler, id: QueryId,
                                          q: Query)
    requires IsRun(run, steps) && OneThread(run, h) && i < m < |run| && steps[i] == Send(h, id, q)
    requires forall x :: i < x < m ==> steps[x] != Return(h)
    ensures run[m].slots - {id} == run[i].slots && id in run[m].slots
  {
    if m == i + 1 {
      assert Next(run[i], steps[i], run[i + 1]);
    } else {
      OtherSlotsStay(run, steps, i, m - 1, h, id, q);
      WaitsAround(run, steps, i, m - 1, h, id, q);
      assert Next(run[m - 1], steps[m - 1], run[m]);
      OneSlotOnly(run[m - 1], steps[m - 1], run[m], h, id, q);
    }
  }

  lemma {:induction false} OneSlotOnly(s: Sys, step: Step, s': Sys, h: Handler, id: QueryId, q: Query)
    requires Inv(s) && Next(s, step, s') && Awaits(s, h, id, q) && Awaits(s', h, id, q)
    requires forall g :: g in s.calls || g in s'.calls ==> g == h
    ensures s'.slots - {id} == s.slots - {id} && (id in s.slots ==> id in s'.slots)
  {
    if step.Deliver? {
      assert Awaits(s, step.answer.sender, step.answer.id, step.answer.query);
    }
  }

  /** A round trip, from sending a query to returning with its reply, has the effect of one direct
      call: from an unused id, the tables are served once, the slot of that id holds the reply, and
      nothing else of the manager's state has changed. */
  lemma {:induction false} RoundTripIsDirectCall(run: seq<Sys>, steps: seq<Step>, i: nat, j: nat, h: Handler,
                                                 id: QueryId, q: Query, w: W.World)
      returns (o: Outcome)
    requires IsRun(run, steps) && OneThread(run, h) && i < j < |steps|
    requires steps[i] == Send(h, id, q) && steps[j] == Return(h) && forall x :: i < x < j ==> steps[x] != Return(h)
    requires w.slots == run[i].slots && w.db == run[i].db
    ensures id !in w.slots && Allowed(w.db, q, o)
    ensures W.RoundTrip(w, q, o, id, true) == w.(db := run[j + 1].db, slots := run[j + 1].slots)
  {
    var k;
    k, o := ReadsOwnReply(run, steps, i, j, h, id, q);
    OtherSlotsStay(run, steps, i, j, h, id, q);
    assert Next(run[i], steps[i], run[i + 1]);
    assert Alone(run, h, i + 1, j);
    SameSlots(run[i].slots, run[j + 1].slots, id, Settled(Serve(w.db, q, o).1));
  }

  lemma {:induction false} SameSlots(slots: map<QueryId, Slot>, slots': map<QueryId, Slot>, id: QueryId, slot: Slot)
    requires slots' - {id} == slots && id in slots' && slots'[id] == slot
    ensures slots' == slots[id := slot]
  {
    forall x | x in slots' ensures x in slots[id := slot] && slots'[x] == slots[id := slot][x] {
      if x != id { assert (slots' - {id})[x] == slots'[x]; }
    }
  }
}
