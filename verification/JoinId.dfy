/** What `join_genID` computes, in terms of the cache and the Device table at its start. */
module JoinId {
  import opened Probe
  import opened Tables

  /** The values of `deviceID_cache`: the string "None" while the database is asked, else `True`. */
  datatype Mark = Reserved | Confirmed

  /** `deviceID_cache` after names have been reserved and confirmed that it did not have yet. */
  function Marked(devices: map<string, Mark>, names: set<string>): map<string, Mark> {
    map c | c in devices.Keys + names :: if c in devices then devices[c] else Confirmed
  }

  /** The names a call of `join_genID` that returns candidate `k` has marked at the end. */
  ghost function Tried(order: Order, base: string, flag: nat, k: nat): set<string> {
    FirstCandidates(order, base, flag, k + 1)
  }

  /** `join_genID` returns candidate `k`: new to the cache, all earlier ones taken. If the database
      answered the last select, the candidate is not in its table either. */
  ghost predicate GeneratedAt(order: Order, devices: map<string, Mark>, db: Db, base: string, flag: nat, k: nat,
                              answered: bool) {
    && Candidate(order, base, flag, k) !in devices
    && (forall j :: 0 <= j < k ==> Candidate(order, base, flag, j) in devices.Keys + DeviceIds(db))
    && (answered ==> Candidate(order, base, flag, k) !in DeviceIds(db))
  }

  /** The first uncached candidate is not in the table: the result is candidate `i`. */
  lemma {:induction false} FoundAtOnce(order: Order, devices: map<string, Mark>, db: Db, base: string, flag: nat,
                                       i: nat, answered: bool)
    requires LeastFree(order, base, flag, devices.Keys, i)
    requires answered ==> Candidate(order, base, flag, i) !in DeviceIds(db)
    ensures GeneratedAt(order, devices, db, base, flag, i, answered)
    ensures devices[Candidate(order, base, flag, i) := Confirmed] == Marked(devices, Tried(order, base, flag, i))
  {
    TriedAt(order, base, flag, devices.Keys, i);
  }

  /** It is: what the recursion finds at its place `k` is candidate `i + 1 + k`. */
  lemma {:induction false} FoundLater(order: Order, devices: map<string, Mark>, db: Db, base: string, flag: nat,
                                       i: nat, k: nat, answered: bool)
    requires LeastFree(order, base, flag, devices.Keys, i)
    requires Candidate(order, base, flag, i) in DeviceIds(db)
    requires GeneratedAt(order, devices[Candidate(order, base, flag, i) := Confirmed], db, base,
                         flag + COLLISION_INC * (i + 1), k, answered)
    ensures Candidate(order, base, flag + COLLISION_INC * (i + 1), k) == Candidate(order, base, flag, i + 1 + k)
    ensures GeneratedAt(order, devices, db, base, flag, i + 1 + k, answered)
    ensures Marked(devices[Candidate(order, base, flag, i) := Confirmed],
                   Tried(order, base, flag + COLLISION_INC * (i + 1), k))
            == Marked(devices, Tried(order, base, flag, i + 1 + k))
  {
    CandidateShift(order, base, flag, i + 1, k);
    TriedAt(order, base, flag, devices.Keys, i);
    TriedLater(order, base, flag, i, k);
    MarkedTwice(devices, Candidate(order, base, flag, i), Tried(order, base, flag, i),
                Tried(order, base, flag + COLLISION_INC * (i + 1), k));
    GeneratedLater(order, devices, db, base, flag, i, k, answered);
  }

  /** The recursion ends: a collision is a name in the table that the cache did not have. */
  lemma {:induction false} FewerUncached(devices: map<string, Mark>, table: set<string>, id: string)
    requires id in table && id !in devices
    ensures table - devices[id := Confirmed].Keys < table - devices.Keys
  {
    assert id in table - devices.Keys;
  }

  lemma {:induction false} TriedAt(order: Order, base: string, flag: nat, cached: set<string>, i: nat)
    requires LeastFree(order, base, flag, cached, i)
    ensures Candidate(order, base, flag, i) in Tried(order, base, flag, i)
    ensures Tried(order, base, flag, i) <= cached + {Candidate(order, base, flag, i)}
  {
  }

  lemma {:induction false} MarkedTwice(devices: map<string, Mark>, here: string, early: set<string>, late: set<string>)
    requires here !in devices && here in early && early <= devices.Keys + {here}
    ensures Marked(devices[here := Confirmed], late) == Marked(devices, early + late)
  {
  }

  lemma {:induction false} TriedLater(order: Order, base: string, flag: nat, i: nat, k: nat)
    ensures Tried(order, base, flag, i + 1 + k)
            == Tried(order, base, flag, i) + Tried(order, base, flag + COLLISION_INC * (i + 1), k)
  {
    FirstCandidatesSplit(order, base, flag, i + 1, k + 1);
    assert i + 1 + k + 1 == (i + 1) + (k + 1);
  }

  lemma {:induction false} GeneratedLater(order: Order, devices: map<string, Mark>, db: Db, base: string, flag: nat,
                                       i: nat, k: nat, answered: bool)
    requires LeastFree(order, base, flag, devices.Keys, i)
    requires Candidate(order, base, flag, i) in DeviceIds(db)
    requires GeneratedAt(order, devices[Candidate(order, base, flag, i) := Confirmed], db, base,
                         flag + COLLISION_INC * (i + 1), k, answered)
    ensures GeneratedAt(order, devices, db, base, flag, i + 1 + k, answered)
  {
    CandidateShift(order, base, flag, i + 1, k);
    var here := Candidate(order, base, flag, i);
    forall j | 0 <= j < i + 1 + k ensures Candidate(order, base, flag, j) in devices.Keys + DeviceIds(db) {
      if j > i {
        CandidateShift(order, base, flag, i + 1, j - (i + 1));
        assert Candidate(order, base, flag + COLLISION_INC * (i + 1), j - (i + 1))
               in devices[here := Confirmed].Keys + DeviceIds(db);
      }
    }
  }

  /** What `join_genID` returns, when the database answers: the least candidate that is neither in
      the cache nor in the Device table, after at most as many collisions as there are names taken. */
  lemma {:induction false} JoinIdIsLeastFree(order: Order, devices: map<string, Mark>, db: Db, base: string,
                                             flag: nat, k: nat)
    ensures GeneratedAt(order, devices, db, base, flag, k, true)
            <==> LeastFree(order, base, flag, devices.Keys + DeviceIds(db), k)
    ensures GeneratedAt(order, devices, db, base, flag, k, true) ==> k <= |devices.Keys + DeviceIds(db)|
  {
    var taken := devices.Keys + DeviceIds(db);
    if GeneratedAt(order, devices, db, base, flag, k, true) {
      assert LeastFree(order, base, flag, taken, k);
      var least := LeastFreeExists(order, base, flag, taken);
      LeastFreeUnique(order, base, flag, taken, least, k);
    }
  }
}
