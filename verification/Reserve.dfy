/** Reserve before ask: `join_genID` puts a candidate in `deviceID_cache` before it asks the
    database about it. Any number of activations may be interleaved at their database round
    trips, and the database may answer anything; what one activation holds no other can get. */
module Reserve {
  import opened Probe

  /** An activation of `join_genID`: about to probe from a flag, asking about its reservation, or
      done with the id it returned. */
  datatype Activation =
    | Probing(base: string, flag: nat)
    | Asking(base: string, flag: nat, id: string)
    | Issued(id: string)

  datatype Sys = Sys(cache: set<string>, joins: map<nat, Activation>)

  datatype Step =
    | Begin(j: nat, base: string)
    | ReserveFree(j: nat, k: nat) // the probe loop and the reservation
    | Collides(j: nat)            // the answer was not empty: probe on from the next flag
    | Confirm(j: nat, id: string) // the answer was empty: return the id
    | Learn(id: string)           // a handler found a device in the database and caches its id
    | Leave(id: string)           // a completed join, or an id of no join, leaves

  predicate Holds(a: Activation, id: string) {
    !a.Probing? && a.id == id
  }

  ghost predicate Next(s: Sys, step: Step, s': Sys) {
    match step
    case Begin(j, base) =>
      j !in s.joins && s' == s.(joins := s.joins[j := Probing(base, 0)])
    case ReserveFree(j, k) =>
      && j in s.joins && s.joins[j].Probing?
      && var Probing(base, flag) := s.joins[j];
         && LeastFree(BaseFirst, base, flag, s.cache, k)
         && var id := Candidate(BaseFirst, base, flag, k);
            s' == Sys(s.cache + {id}, s.joins[j := Asking(base, flag + COLLISION_INC * k, id)])
    case Collides(j) =>
      && j in s.joins && s.joins[j].Asking?
      && s' == s.(joins := s.joins[j := Probing(s.joins[j].base, s.joins[j].flag + COLLISION_INC)])
    case Confirm(j, id) =>
      && j in s.joins && s.joins[j].Asking? && s.joins[j].id == id
      && s' == s.(joins := s.joins[j := Issued(id)])
    case Learn(id) =>
      s' == s.(cache := s.cache + {id})
    case Leave(id) =>
      && (forall j :: j in s.joins && s.joins[j].Asking? ==> s.joins[j].id != id)
      && s' == Sys(s.cache - {id}, map j | j in s.joins && !Holds(s.joins[j], id) :: s.joins[j])
  }

  ghost predicate IsRun(run: seq<Sys>, steps: seq<Step>) {
    && |run| == |steps| + 1
    && run[0].joins == map[]
    && forall i :: 0 <= i < |steps| ==> Next(run[i], steps[i], run[i + 1])
  }

  ghost predicate Exclusive(s: Sys) {
    && (forall j :: j in s.joins && !s.joins[j].Probing? ==> s.joins[j].id in s.cache)
    && (forall i, j :: i in s.joins && j in s.joins && i != j && !s.joins[i].Probing? && !s.joins[j].Probing?
          ==> s.joins[i].id != s.joins[j].id)
  }

  lemma {:induction false} StepKeepsExclusive(s: Sys, step: Step, s': Sys)
    requires Exclusive(s) && Next(s, step, s')
    ensures Exclusive(s')
  {
  }

  /** In every reachable state, ids reserved or handed out and not given back are pairwise
      different, whatever the bases, the initial cache and the database's answers. */
  lemma {:induction false} NoTwoJoinsShareAnId(run: seq<Sys>, steps: seq<Step>, n: nat)
    requires IsRun(run, steps) && n < |run|
    ensures Exclusive(run[n])
  {
    if n > 0 {
      NoTwoJoinsShareAnId(run, steps, n - 1);
      StepKeepsExclusive(run[n - 1], steps[n - 1], run[n]);
    }
  }

  /** An id handed out once is handed out again only after a leave gave it back. */
  lemma {:induction false} ReissuedOnlyAfterLeave(run: seq<Sys>, steps: seq<Step>, i: nat, j: nat)
    requires IsRun(run, steps) && i < j < |steps| && steps[i].Confirm? && steps[j].Confirm?
    requires steps[i].id == steps[j].id
    ensures exists x :: i < x < j && steps[x] == Leave(steps[i].id)
  {
    if forall x :: i < x < j ==> steps[x] != Leave(steps[i].id) {
      StaysIssued(run, steps, i, j);
      assert Next(run[j], steps[j], run[j + 1]);
      NoTwoJoinsShareAnId(run, steps, j);
      assert false;
    }
  }

  lemma {:induction false} StaysIssued(run: seq<Sys>, steps: seq<Step>, i: nat, m: nat)
    requires IsRun(run, steps) && i < m < |run| && steps[i].Confirm?
    requires forall x :: i < x < m ==> steps[x] != Leave(steps[i].id)
    ensures steps[i].j in run[m].joins && run[m].joins[steps[i].j] == Issued(steps[i].id)
  {
    assert Next(run[m - 1], steps[m - 1], run[m]);
    if m > i + 1 {
      StaysIssued(run, steps, i, m - 1);
    }
  }

  /** The guard on `Leave` is needed: had the id "a0" been given back while join 0 still asks about
      it, join 1 with the same base would reserve it as well. */
  lemma {:induction false} LeaveDuringJoinBreaksIt()
    ensures var id := Candidate(BaseFirst, "a", 0, 0);
            var asking := Asking("a", 0, id);
            && Exclusive(Sys({id}, map[0 := asking, 1 := Probing("a", 0)]))
            && Next(Sys({}, map[0 := asking, 1 := Probing("a", 0)]), ReserveFree(1, 0),
                    Sys({id}, map[0 := asking, 1 := asking]))
            && !Exclusive(Sys({id}, map[0 := asking, 1 := asking]))
  {
    var id := Candidate(BaseFirst, "a", 0, 0);
    var asking := Asking("a", 0, id);
    assert map[0 := asking, 1 := Probing("a", 0)][1 := asking] == map[0 := asking, 1 := asking];
    var s := Sys({id}, map[0 := asking, 1 := asking]);
    assert s.joins[0].id == s.joins[1].id;
  }
}
