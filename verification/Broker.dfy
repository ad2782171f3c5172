/** `send_DBquery` and `on_db_message` as a protocol: any number of request handlers share
    `dbQuery_cache` with the database thread and talk to a remote database through messages
    that may be reordered or lost but not duplicated (MQTT QoS 0, section 4.3.1 of MQTT Version
    3.1.1). Query ids are drawn at random among those not in the cache, so they are reused. */
module Broker {
  import opened Tables
  import opened Queries

  type Handler = nat

  /** Where a handler stands: spinning on its slot, or done waiting and holding the slot's key. */
  datatype Call = Waiting(id: QueryId, query: Query) | Holding(id: QueryId)

  /** Messages in flight. On the wire a message is its id and its content; the sending handler and
      the query behind an answer are noted for the proofs only, no step looks at them. The messages
      in flight form sets: `NothingMerges` shows that no step adds a message that is there already. */
  datatype Ask = Ask(id: QueryId, query: Query, sender: Handler)

  datatype Answer = Answer(id: QueryId, reply: Reply, query: Query, sender: Handler)

  datatype Sys = Sys(slots: map<QueryId, Slot>, calls: map<Handler, Call>, asks: set<Ask>,
                     answers: set<Answer>, db: Db, read: seq<(Query, Reply)>)

  datatype Step =
    | Send(h: Handler, id: QueryId, query: Query)
    | ServeAsk(ask: Ask, outcome: Outcome)
    | Deliver(answer: Answer)
    | LoseAsk(ask: Ask)
    | LoseAnswer(answer: Answer)
    | Return(h: Handler)
    | Forget(h: Handler)  // `del dbQuery_cache[queryID]`
    | Abandon(h: Handler) // `join` leaves its slot behind

  predicate Init(s: Sys) {
    s.slots == map[] && s.calls == map[] && s.asks == {} && s.answers == {} && s.read == []
  }

  ghost predicate Next(s: Sys, step: Step, s': Sys) {
    match step
    case Send(h, id, q) =>
      && h !in s.calls && id !in s.slots
      && s' == s.(slots := s.slots[id := Empty], calls := s.calls[h := Waiting(id, q)],
                  asks := s.asks + {Ask(id, q, h)})
    case ServeAsk(ask, o) =>
      && ask in s.asks && Allowed(s.db, ask.query, o)
      && var (db', reply) := Serve(s.db, ask.query, o);
         s' == s.(asks := s.asks - {ask}, db := db',
                  answers := s.answers + {Answer(ask.id, reply, ask.query, ask.sender)})
    case Deliver(answer) =>
      && answer in s.answers
      && s' == s.(answers := s.answers - {answer}, slots := s.slots[answer.id := Settled(answer.reply)])
    case LoseAsk(ask) =>
      ask in s.asks && s' == s.(asks := s.asks - {ask})
    case LoseAnswer(answer) =>
      answer in s.answers && s' == s.(answers := s.answers - {answer})
    case Return(h) =>
      && h in s.calls && s.calls[h].Waiting? && s.calls[h].id in s.slots && s.slots[s.calls[h].id].Settled?
      && s' == s.(calls := s.calls[h := Holding(s.calls[h].id)],
                  read := s.read + [(s.calls[h].query, s.slots[s.calls[h].id].reply)])
    case Forget(h) =>
      && h in s.calls && s.calls[h].Holding?
      && s' == s.(calls := s.calls - {h}, slots := s.slots - {s.calls[h].id})
    case Abandon(h) =>
      h in s.calls && s.calls[h].Holding? && s' == s.(calls := s.calls - {h})
  }

  ghost predicate IsRun(run: seq<Sys>, steps: seq<Step>) {
    && |run| == |steps| + 1
    && Init(run[0])
    && forall i :: 0 <= i < |steps| ==> Next(run[i], steps[i], run[i + 1])
  }

  ghost predicate Unanswered(s: Sys, id: QueryId) {
    id in s.slots && s.slots[id] == Empty
  }

  ghost predicate Awaits(s: Sys, h: Handler, id: QueryId, q: Query) {
    h in s.calls && s.calls[h] == Waiting(id, q)
  }

  /** The correlation property: every message in flight carries an id of its own, that id is a
      key of the cache still holding "None", and the handler that sent the query waits for it. */
  ghost predicate Correlated(s: Sys) {
    && (forall a :: a in s.asks ==> Unanswered(s, a.id) && Awaits(s, a.sender, a.id, a.query))
    && (forall a :: a in s.answers ==> Unanswered(s, a.id) && Awaits(s, a.sender, a.id, a.query))
    && (forall a, b :: a in s.asks && b in s.asks && a.id == b.id ==> a == b)
    && (forall a, b :: a in s.answers && b in s.answers && a.id == b.id ==> a == b)
    && (forall a, b :: a in s.asks && b in s.answers ==> a.id != b.id)
  }

  /** No two handlers hold the same id, every held id is a key, and who stopped waiting has a reply. */
  ghost predicate HandlersApart(s: Sys) {
    && (forall g, h :: g in s.calls && h in s.calls && g != h ==> s.calls[g].id != s.calls[h].id)
    && (forall h :: h in s.calls ==> s.calls[h].id in s.slots)
    && (forall h :: h in s.calls && s.calls[h].Holding? ==> s.slots[s.calls[h].id].Settled?)
  }

  ghost predicate Inv(s: Sys) {
    Correlated(s) && HandlersApart(s)
  }

  lemma {:induction false} SendKeepsInv(s: Sys, step: Step, s': Sys)
    requires Inv(s) && Next(s, step, s') && step.Send?
    ensures Inv(s')
  {
  }

  lemma {:induction false} ServeKeepsInv(s: Sys, step: Step, s': Sys)
    requires Inv(s) && Next(s, step, s') && step.ServeAsk?
    ensures Inv(s')
  {
  }

  lemma {:induction false} DeliverKeepsInv(s: Sys, step: Step, s': Sys)
    requires Inv(s) && Next(s, step, s') && step.Deliver?
    ensures Inv(s')
  {
  }

  lemma {:induction false} LoseKeepsInv(s: Sys, step: Step, s': Sys)
    requires Inv(s) && Next(s, step, s') && (step.LoseAsk? || step.LoseAnswer?)
    ensures Inv(s')
  {
  }

  lemma {:induction false} HandlerKeepsInv(s: Sys, step: Step, s': Sys)
    requires Inv(s) && Next(s, step, s') && (step.Return? || step.Forget? || step.Abandon?)
    ensures Inv(s')
  {
  }

  lemma {:induction false} StepKeepsInv(s: Sys, step: Step, s': Sys)
    requires Inv(s) && Next(s, step, s')
    ensures Inv(s')
  {
    match step {
      case Send(_, _, _) => SendKeepsInv(s, step, s');
      case ServeAsk(_, _) => ServeKeepsInv(s, step, s');
      case Deliver(_) => DeliverKeepsInv(s, step, s');
      case LoseAsk(_) | LoseAnswer(_) => LoseKeepsInv(s, step, s');
      case Return(_) | Forget(_) | Abandon(_) => HandlerKeepsInv(s, step, s');
    }
  }

  /** A message put in flight was not in flight before. */
  lemma {:induction false} NothingMerges(s: Sys, step: Step, s': Sys)
    requires Inv(s) && Next(s, step, s')
    ensures step.Send? ==> Ask(step.id, step.query, step.h) !in s.asks
    ensures step.ServeAsk? ==> forall a :: a in s'.answers && a !in s.answers <==>
              a == Answer(step.ask.id, Serve(s.db, step.ask.query, step.outcome).1, step.ask.query, step.ask.sender)
  {
  }

  /** In every reachable state, for any number of handlers and any losses, the messages in flight
      are correlated with the waiting handlers. */
  lemma {:induction false} AlwaysCorrelated(run: seq<Sys>, steps: seq<Step>, n: nat)
    requires IsRun(run, steps) && n < |run|
    ensures Correlated(run[n]) && Inv(run[n])
  {
    if n > 0 {
      AlwaysCorrelated(run, steps, n - 1);
      StepKeepsInv(run[n - 1], steps[n - 1], run[n]);
    }
  }

  /** Where query `q`, sent under `id` in step `i`, has got to. */
  datatype Stage = Asked | Answered(k: nat, o: Outcome) | Received(k: nat, o: Outcome) | Lost

  /** Nobody but `h` is in a round trip in the states `i..m`. */
  ghost predicate Alone(run: seq<Sys>, h: Handler, i: nat, m: nat)
    requires i <= m < |run|
  {
    forall x :: i <= x <= m ==> forall g :: g in run[x].calls && run[x].calls[g].Waiting? ==> g == h
  }

  predicate Serves(step: Step, id: QueryId) {
    step.ServeAsk? && step.ask.id == id
  }

  /** The query was served in step `k` and no other, between sending and state `m`, with the reply a direct call
      gives on the tables of that moment; alone, that is on the tables of the moment of sending. */
  ghost predicate ServedAt(run: seq<Sys>, steps: seq<Step>, i: nat, m: nat, h: Handler, id: QueryId, q: Query,
                           k: nat, o: Outcome)
    requires |run| == |steps| + 1 && i < m < |run|
  {
    && i < k < m
    && steps[k] == ServeAsk(Ask(id, q, h), o)
    && (forall x :: i < x < m && Serves(steps[x], id) ==> x == k)
    && run[k + 1].db == Serve(run[k].db, q, o).0
    && (Alone(run, h, i + 1, m) ==> run[k].db == run[i].db && run[m].db == run[k + 1].db)
  }

  ghost predicate StageHolds(run: seq<Sys>, steps: seq<Step>, i: nat, m: nat, h: Handler, id: QueryId, q: Query,
                             st: Stage)
    requires |run| == |steps| + 1 && i < m < |run|
  {
    match st
    case Asked =>
      && Ask(id, q, h) in run[m].asks
      && (forall x :: i < x < m ==> !Serves(steps[x], id))
      && (Alone(run, h, i + 1, m) ==> run[m].db == run[i].db)
    case Answered(k, o) =>
      && ServedAt(run, steps, i, m, h, id, q, k, o)
      && Answer(id, Serve(run[k].db, q, o).1, q, h) in run[m].answers
    case Received(k, o) =>
      && ServedAt(run, steps, i, m, h, id, q, k, o)
      && id in run[m].slots && run[m].slots[id] == Settled(Serve(run[k].db, q, o).1)
      && (forall a :: a in run[m].asks ==> a.id != id)
      && (forall a :: a in run[m].answers ==> a.id != id)
    case Lost =>
      && Unanswered(run[m], id)
      && (forall a :: a in run[m].asks ==> a.id != id)
      && (forall a :: a in run[m].answers ==> a.id != id)
  }

  /** Alone, the only query that can be served is one's own. */
  lemma {:induction false} AloneServesOwn(run: seq<Sys>, steps: seq<Step>, i: nat, m: nat, h: Handler, id: QueryId,
                                          q: Query)
    requires |run| == |steps| + 1 && i < m < |steps| && Next(run[m], steps[m], run[m + 1])
    requires Inv(run[m]) && Awaits(run[m], h, id, q) && Alone(run, h, i + 1, m)
    ensures run[m + 1].db == run[m].db || (steps[m].ServeAsk? && steps[m].ask == Ask(id, q, h))
  {
    if steps[m].ServeAsk? {
      var ask := steps[m].ask;
      assert Awaits(run[m], ask.sender, ask.id, ask.query);
      assert run[m].calls[ask.sender].Waiting?;
    }
  }

  /** Once served, a query stays served: later steps do not change that account of it. */
  lemma {:induction false} ServedStays(run: seq<Sys>, steps: seq<Step>, i: nat, m: nat, h: Handler, id: QueryId,
                                       q: Query, k: nat, o: Outcome)
    requires |run| == |steps| + 1 && i < m < |steps| && Next(run[m], steps[m], run[m + 1])
    requires Inv(run[m]) && Awaits(run[m], h, id, q) && Awaits(run[m + 1], h, id, q)
    requires ServedAt(run, steps, i, m, h, id, q, k, o) && (forall a :: a in run[m].asks ==> a.id != id)
    ensures ServedAt(run, steps, i, m + 1, h, id, q, k, o)
  {
    if Alone(run, h, i + 1, m + 1) {
      assert Alone(run, h, i + 1, m);
      AloneServesOwn(run, steps, i, m, h, id, q);
    }
  }

  lemma {:induction false} AskedStep(run: seq<Sys>, steps: seq<Step>, i: nat, m: nat, h: Handler, id: QueryId, q: Query)
      returns (st: Stage)
    requires |run| == |steps| + 1 && i < m < |steps| && Next(run[m], steps[m], run[m + 1])
    requires Inv(run[m]) && Awaits(run[m], h, id, q) && Awaits(run[m + 1], h, id, q)
    requires StageHolds(run, steps, i, m, h, id, q, Asked)
    ensures StageHolds(run, steps, i, m + 1, h, id, q, st)
  {
    if Alone(run, h, i + 1, m + 1) {
      assert Alone(run, h, i + 1, m);
      AloneServesOwn(run, steps, i, m, h, id, q);
    }
    st := if steps[m].ServeAsk? && steps[m].ask == Ask(id, q, h) then Answered(m, steps[m].outcome)
          else if steps[m] == LoseAsk(Ask(id, q, h)) then Lost
          else Asked;
  }

  lemma {:induction false} AnsweredStep(run: seq<Sys>, steps: seq<Step>, i: nat, m: nat, h: Handler, id: QueryId,
                                        q: Query, k: nat, o: Outcome)
      returns (st: Stage)
    requires |run| == |steps| + 1 && i < m < |steps| && Next(run[m], steps[m], run[m + 1])
    requires Inv(run[m]) && Awaits(run[m], h, id, q) && Awaits(run[m + 1], h, id, q)
    requires StageHolds(run, steps, i, m, h, id, q, Answered(k, o))
    ensures StageHolds(run, steps, i, m + 1, h, id, q, st)
  {
    var answer := Answer(id, Serve(run[k].db, q, o).1, q, h);
    ServedStays(run, steps, i, m, h, id, q, k, o);
    st := if steps[m] == Deliver(answer) then Received(k, o)
          else if steps[m] == LoseAnswer(answer) then Lost
          else Answered(k, o);
  }

  /** With nothing of id `id` in flight, its slot does not change under a waiting handler. */
  lemma {:induction false} QuietStep(run: seq<Sys>, steps: seq<Step>, i: nat, m: nat, h: Handler, id: QueryId, q: Query)
    requires |run| == |steps| + 1 && i < m < |steps| && Next(run[m], steps[m], run[m + 1])
    requires Inv(run[m]) && Awaits(run[m], h, id, q) && Awaits(run[m + 1], h, id, q)
    requires forall a :: a in run[m].asks ==> a.id != id
    requires forall a :: a in run[m].answers ==> a.id != id
    ensures forall a :: a in run[m + 1].asks ==> a.id != id
    ensures forall a :: a in run[m + 1].answers ==> a.id != id
    ensures id in run[m + 1].slots && run[m + 1].slots[id] == run[m].slots[id]
  {
  }

  /** Until its own `Return`, a handler that sent a query keeps waiting for it. */
  lemma {:induction false} WaitsFrom(run: seq<Sys>, steps: seq<Step>, i: nat, m: nat, h: Handler, id: QueryId, q: Query)
    requires IsRun(run, steps) && i < m < |run| && steps[i] == Send(h, id, q)
    requires forall x :: i < x < m ==> steps[x] != Return(h)
    ensures Awaits(run[m], h, id, q)
  {
    assert Next(run[m - 1], steps[m - 1], run[m]);
    if m > i + 1 {
      WaitsFrom(run, steps, i, m - 1, h, id, q);
    }
  }

  lemma {:induction false} RightAfterSend(run: seq<Sys>, steps: seq<Step>, i: nat, h: Handler, id: QueryId, q: Query)
    requires IsRun(run, steps) && i < |steps| && steps[i] == Send(h, id, q)
    ensures StageHolds(run, steps, i, i + 1, h, id, q, Asked)
  {
    assert Next(run[i], steps[i], run[i + 1]);
  }

  /** The two states around a step during which `h` waits. */
  lemma {:induction false} WaitsAround(run: seq<Sys>, steps: seq<Step>, i: nat, m: nat, h: Handler, id: QueryId,
                                       q: Query)
    requires IsRun(run, steps) && i < m < |steps| && steps[i] == Send(h, id, q)
    requires forall x :: i < x <= m ==> steps[x] != Return(h)
    ensures Inv(run[m]) && Awaits(run[m], h, id, q) && Awaits(run[m + 1], h, id, q)
  {
    AlwaysCorrelated(run, steps, m);
    WaitsFrom(run, steps, i, m, h, id, q);
    WaitsFrom(run, steps, i, m + 1, h, id, q);
  }

  lemma {:induction false} StageStep(run: seq<Sys>, steps: seq<Step>, i: nat, m: nat, h: Handler, id: QueryId,
                                     q: Query, st: Stage)
      returns (st': Stage)
    requires IsRun(run, steps) && i < m < |steps| && steps[i] == Send(h, id, q)
    requires forall x :: i < x <= m ==> steps[x] != Return(h)
    requires StageHolds(run, steps, i, m, h, id, q, st)
    ensures StageHolds(run, steps, i, m + 1, h, id, q, st')
  {
    st' := st;
    WaitsAround(run, steps, i, m, h, id, q);
    assert Next(run[m], steps[m], run[m + 1]);
    match st {
      case Asked =>
        st' := AskedStep(run, steps, i, m, h, id, q);
      case Answered(k, o) =>
        st' := AnsweredStep(run, steps, i, m, h, id, q, k, o);
      case Received(k, o) =>
        QuietStep(run, steps, i, m, h, id, q);
        ServedStays(run, steps, i, m, h, id, q, k, o);
      case Lost =>
        QuietStep(run, steps, i, m, h, id, q);
    }
  }

  lemma {:induction false} Track(run: seq<Sys>, steps: seq<Step>, i: nat, m: nat, h: Handler, id: QueryId, q: Query)
      returns (st: Stage)
    requires IsRun(run, steps) && i < m < |run| && steps[i] == Send(h, id, q)
    requires forall x :: i < x < m ==> steps[x] != Return(h)
    ensures StageHolds(run, steps, i, m, h, id, q, st)
  {
    if m == i + 1 {
      RightAfterSend(run, steps, i, h, id, q);
      st := Asked;
    } else {
      st := Track(run, steps, i, m - 1, h, id, q);
      st := StageStep(run, steps, i, m - 1, h, id, q, st);
    }
  }

  /** A waiting handler only ever reads the reply to its own query: whatever else happened between
      sending (step `i`) and returning (step `j`), exactly one step `k` in between served this query,
      and the handler finds the reply of that service in its slot. If no other handler was in a round
      trip meanwhile, reply and tables are exactly those of a direct call on the tables of the moment
      of sending. */
  lemma {:induction false} ReadsOwnReply(run: seq<Sys>, steps: seq<Step>, i: nat, j: nat, h: Handler, id: QueryId,
                                         q: Query)
      returns (k: nat, o: Outcome)
    requires IsRun(run, steps) && i < j < |steps| && steps[i] == Send(h, id, q) && steps[j] == Return(h)
    requires forall x :: i < x < j ==> steps[x] != Return(h)
    ensures i < k < j && steps[k] == ServeAsk(Ask(id, q, h), o) && Allowed(run[k].db, q, o)
    ensures run[k + 1].db == Serve(run[k].db, q, o).0
    ensures forall x :: i < x < j && Serves(steps[x], id) ==> x == k
    ensures run[j + 1].slots == run[j].slots && id in run[j].slots
    ensures run[j].slots[id] == Settled(Serve(run[k].db, q, o).1)
    ensures run[j + 1].read == run[j].read + [(q, Serve(run[k].db, q, o).1)]
    ensures Alone(run, h, i + 1, j) ==>
              && run[j].slots[id] == Settled(Serve(run[i].db, q, o).1)
              && run[j + 1].db == Serve(run[i].db, q, o).0 && Allowed(run[i].db, q, o)
  {
    var st := Track(run, steps, i, j, h, id, q);
    WaitsFrom(run, steps, i, j, h, id, q);
    AlwaysCorrelated(run, steps, j);
    assert Next(run[j], steps[j], run[j + 1]);
    k, o := st.k, st.o;
    assert Next(run[k], steps[k], run[k + 1]);
  }
}
