/** The FlexID flag byte: bit 7 marks a cacheable object, bit 6 a segmented one, bits 5..2 hold
    the collision management number. */
module Flags {
  import opened Wrappers
  import opened Probe

  /** `gen_flag`. The source raises for a management number above 15. */
  function GenFlag(cacheBit: bool, segmentBit: bool, management: nat): (r: Option<nat>)
    ensures r.None? <==> management > 15
    ensures r.Some? ==> r.value == Weight(cacheBit, segmentBit) + 4 * management
  {
    if management > 15 then None else
    var flag: bv8 := 0;
    var flag := if cacheBit then flag | 128 else flag;
    var flag := if segmentBit then flag | 64 else flag;
    var flag := flag | ((management as bv8) << 2);
    BitsAreDisjoint(cacheBit, segmentBit, management);
    Some(flag as nat)
  }

  function Weight(cacheBit: bool, segmentBit: bool): nat {
    (if cacheBit then 128 else 0) + (if segmentBit then 64 else 0)
  }

  lemma {:induction false} BitsAreDisjoint(cacheBit: bool, segmentBit: bool, management: nat)
    requires management <= 15
    ensures var flag: bv8 := if cacheBit then 128 else 0;
            var flag := if segmentBit then flag | 64 else flag;
            (flag | ((management as bv8) << 2)) as nat == Weight(cacheBit, segmentBit) + 4 * management
  {
  }

  /** Bit 7 of the flag is the cache bit, bit 6 the segment bit, bits 5 to 2 are the management number and
      bits 1 and 0 are clear. */
  lemma {:induction false} FlagBits(cacheBit: bool, segmentBit: bool, management: nat)
    requires management <= 15
    ensures var flag := GenFlag(cacheBit, segmentBit, management).value;
            && flag < 256
            && (flag / 128 % 2 == 1 <==> cacheBit)
            && (flag / 64 % 2 == 1 <==> segmentBit)
            && flag / 4 % 16 == management
            && flag % 4 == 0
  {
  }

  /** The flag tells all three ingredients apart. */
  lemma {:induction false} GenFlagInjective(c: bool, s: bool, m: nat, c': bool, s': bool, m': nat)
    requires m <= 15 && m' <= 15 && GenFlag(c, s, m) == GenFlag(c', s', m')
    ensures c == c' && s == s' && m == m'
  {
    assert 0 <= 4 * m <= 60 && 0 <= 4 * m' <= 60;
  }

  /** Probing from `gen_flag(c, s, 0)` stays inside the flags of `(c, s)` exactly as long as it
      makes at most 15 steps; step 16 carries out of the 4-bit management number. */
  lemma {:induction false} StepsWithinField(c: bool, s: bool, k: nat)
    ensures k <= 15 ==> GenFlag(c, s, k) == Some(GenFlag(c, s, 0).value + COLLISION_INC * k)
    ensures (exists m: nat :: GenFlag(c, s, m) == Some(GenFlag(c, s, 0).value + COLLISION_INC * k)) <==> k <= 15
  {
    if k <= 15 {
      assert GenFlag(c, s, k) == Some(GenFlag(c, s, 0).value + COLLISION_INC * k);
    }
  }

  /** What probing to the first free identifier does to the flag: it keeps the item's cache and
      segment bits, with management number `k`, if and only if one of the first 16 candidates is
      free. */
  lemma {:induction false} ManagementNumber(order: Order, base: string, c: bool, s: bool, taken: set<string>, k: nat)
    requires LeastFree(order, base, GenFlag(c, s, 0).value, taken, k)
    ensures (exists m: nat :: GenFlag(c, s, m) == Some(GenFlag(c, s, 0).value + COLLISION_INC * k))
            <==> (exists j: nat :: j < 16 && Candidate(order, base, GenFlag(c, s, 0).value, j) !in taken)
    ensures |taken * FirstCandidates(order, base, GenFlag(c, s, 0).value, 16)| < 16
            ==> k <= 15 && GenFlag(c, s, k) == Some(GenFlag(c, s, 0).value + COLLISION_INC * k)
  {
    var flag := GenFlag(c, s, 0).value;
    StepsWithinField(c, s, k);
    if k <= 15 {
      assert Candidate(order, base, flag, k) !in taken;
    }
    if |taken * FirstCandidates(order, base, flag, 16)| < 16 {
      var j := FreeAmongFirst(order, base, flag, taken, 16);
    }
  }

  /** The first carry: after 16 collisions an unsegmented object's flag is a segmented one's. */
  lemma {:induction false} SixteenCollisionsCarry()
    ensures GenFlag(false, false, 0).value + COLLISION_INC * 16 == GenFlag(false, true, 0).value
  {
  }
}
