/** Query ids and the entries of `dbQuery_cache`. */
module Queries {
  import opened Tables

  const ID_SPACE: nat := 0x1_0000_0000

  /** Four random bytes; the source prints them as "0x" and eight hex digits. */
  type QueryId = x: nat | x < ID_SPACE

  /** An entry of `dbQuery_cache`: the string "None", or the reply stored over it. */
  datatype Slot = Empty | Settled(reply: Reply)

  ghost function FirstIds(n: nat): (ids: set<QueryId>)
    requires n <= ID_SPACE
    ensures |ids| == n && forall x: QueryId :: x in ids <==> x < n
  {
    if n == 0 then {} else FirstIds(n - 1) + {n - 1}
  }

  lemma {:induction false} Pigeonhole(keys: set<QueryId>, n: nat)
    requires n <= ID_SPACE && forall x :: x in keys ==> x < n
    ensures |keys| <= n
    ensures |keys| < n ==> exists id: QueryId :: id !in keys
  {
    var all := FirstIds(n);
    assert all == keys + (all - keys);
    if all - keys != {} {
      var id: QueryId :| id in all - keys;
      assert id !in keys;
    }
  }

  /** A cache holds at most 2^32 entries, and while it holds fewer some id is unused. */
  lemma {:induction false} UnusedIds(slots: map<QueryId, Slot>)
    ensures |slots| <= ID_SPACE
    ensures |slots| < ID_SPACE ==> exists id: QueryId :: id !in slots
  {
    Pigeonhole(slots.Keys, ID_SPACE);
    assert |slots.Keys| == |slots|;
    if id: QueryId :| id !in slots.Keys {
      assert id !in slots;
    }
  }
}
