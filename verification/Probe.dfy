/** Identifier probing: both managers append (or prepend) a printed flag to a base string and
    raise the flag by 4 until the result is free. */
module Probe {
  import opened Decimal

  /** The broker version puts the flag last, the local version puts it first. */
  datatype Order = BaseFirst | FlagFirst

  const COLLISION_INC: nat := 4

  function Id(order: Order, base: string, flag: nat): string {
    match order
    case BaseFirst => base + Str(flag)
    case FlagFirst => Str(flag) + base
  }

  /** The `k`-th identifier tried from `flag`. */
  function Candidate(order: Order, base: string, flag: nat, k: nat): string {
    Id(order, base, flag + COLLISION_INC * k)
  }

  lemma {:induction false} IdInjective(order: Order, base: string, f: nat, g: nat)
    requires Id(order, base, f) == Id(order, base, g)
    ensures f == g
  {
    var s, t := Id(order, base, f), Id(order, base, g);
    match order {
      case BaseFirst => assert s[|base|..] == Str(f) && t[|base|..] == Str(g);
      case FlagFirst => assert s[..|s| - |base|] == Str(f) && t[..|t| - |base|] == Str(g);
    }
    StrInjective(f, g);
  }

  lemma {:induction false} CandidateInjective(order: Order, base: string, flag: nat, j: nat, k: nat)
    requires Candidate(order, base, flag, j) == Candidate(order, base, flag, k)
    ensures j == k
  {
    IdInjective(order, base, flag + COLLISION_INC * j, flag + COLLISION_INC * k);
  }

  /** Probing on from the next flag is probing the same sequence one place further. */
  lemma {:induction false} CandidateShift(order: Order, base: string, flag: nat, i: nat, k: nat)
    ensures Candidate(order, base, flag + COLLISION_INC * i, k) == Candidate(order, base, flag, i + k)
  {
    assert flag + COLLISION_INC * i + COLLISION_INC * k == flag + COLLISION_INC * (i + k);
  }

  /** Probe `k` is the first that is not taken. */
  ghost predicate LeastFree(order: Order, base: string, flag: nat, taken: set<string>, k: nat) {
    && Candidate(order, base, flag, k) !in taken
    && forall j :: 0 <= j < k ==> Candidate(order, base, flag, j) in taken
  }

  lemma {:induction false} LeastFreeUnique(order: Order, base: string, flag: nat, taken: set<string>, j: nat, k: nat)
    requires LeastFree(order, base, flag, taken, j) && LeastFree(order, base, flag, taken, k)
    ensures j == k
  {
  }

  ghost function FirstCandidates(order: Order, base: string, flag: nat, n: nat): set<string> {
    set j: nat | j < n :: Candidate(order, base, flag, j)
  }

  /** The first candidates split into those of the first probes and those from a later flag on. */
  lemma {:induction false} FirstCandidatesSplit(order: Order, base: string, flag: nat, m: nat, n: nat)
    ensures FirstCandidates(order, base, flag, m + n)
            == FirstCandidates(order, base, flag, m) + FirstCandidates(order, base, flag + COLLISION_INC * m, n)
  {
    var all := FirstCandidates(order, base, flag, m + n);
    var early, late := FirstCandidates(order, base, flag, m), FirstCandidates(order, base, flag + COLLISION_INC * m, n);
    forall c | c in all ensures c in early + late {
      var j: nat :| j < m + n && c == Candidate(order, base, flag, j);
      if j >= m { CandidateShift(order, base, flag, m, j - m); }
    }
    forall c | c in late ensures c in all {
      var j: nat :| j < n && c == Candidate(order, base, flag + COLLISION_INC * m, j);
      CandidateShift(order, base, flag, m, j);
    }
  }

  lemma {:induction false} OneMoreCandidate(order: Order, base: string, flag: nat, n: nat)
    ensures FirstCandidates(order, base, flag, n + 1)
            == FirstCandidates(order, base, flag, n) + {Candidate(order, base, flag, n)}
  {
  }

  lemma {:induction false} CandidateIsNew(order: Order, base: string, flag: nat, n: nat)
    ensures Candidate(order, base, flag, n) !in FirstCandidates(order, base, flag, n)
  {
    if Candidate(order, base, flag, n) in FirstCandidates(order, base, flag, n) {
      var j: nat :| j < n && Candidate(order, base, flag, n) == Candidate(order, base, flag, j);
      CandidateInjective(order, base, flag, n, j);
      assert false;
    }
  }

  lemma {:induction false} OneMoreSize<T>(s: set<T>, x: T)
    requires x !in s
    ensures |s + {x}| == |s| + 1
  {
  }

  lemma {:induction false} FirstCandidatesSize(order: Order, base: string, flag: nat, n: nat)
    ensures |FirstCandidates(order, base, flag, n)| == n
  {
    if n == 0 {
      assert FirstCandidates(order, base, flag, 0) == {};
    } else {
      FirstCandidatesSize(order, base, flag, n - 1);
      OneMoreCandidate(order, base, flag, n - 1);
      CandidateIsNew(order, base, flag, n - 1);
      OneMoreSize(FirstCandidates(order, base, flag, n - 1), Candidate(order, base, flag, n - 1));
    }
  }

  lemma {:induction false} SubsetSize<T>(a: set<T>, b: set<T>)
    requires a <= b
    ensures |a| <= |b|
  {
    assert b == a + (b - a);
  }

  /** Pigeonhole: among `n + 1` candidates one is free of any `n` taken names. */
  lemma {:induction false} FreeAmongFirst(order: Order, base: string, flag: nat, taken: set<string>, n: nat)
      returns (k: nat)
    requires |taken * FirstCandidates(order, base, flag, n)| < n
    ensures k < n && LeastFree(order, base, flag, taken, k)
  {
    var all := FirstCandidates(order, base, flag, n);
    FirstCandidatesSize(order, base, flag, n);
    assert exists j :: 0 <= j < n && Candidate(order, base, flag, j) !in taken by {
      assert taken * all != all;
    }
    k := 0;
    while Candidate(order, base, flag, k) in taken
      invariant 0 <= k < n
      invariant forall j :: 0 <= j < k ==> Candidate(order, base, flag, j) in taken
      invariant exists j :: k <= j < n && Candidate(order, base, flag, j) !in taken
      decreases n - k
    {
      k := k + 1;
    }
  }

  /** Against any finite set of taken names the probing ends, after at most that many collisions. */
  lemma {:induction false} LeastFreeExists(order: Order, base: string, flag: nat, taken: set<string>) returns (k: nat)
    ensures k <= |taken| && LeastFree(order, base, flag, taken, k)
  {
    SubsetSize(taken * FirstCandidates(order, base, flag, |taken| + 1), taken);
    k := FreeAmongFirst(order, base, flag, taken, |taken| + 1);
  }

  /** The taken names that probing from `flag` on can still run into. */
  ghost function Ahead(order: Order, base: string, flag: nat, taken: set<string>): set<string> {
    set s | s in taken && exists k: nat :: s == Candidate(order, base, flag, k)
  }

  /** The termination measure of every probe loop: a collision is never met twice. */
  lemma {:induction false} AheadShrinks(order: Order, base: string, flag: nat, taken: set<string>)
    requires Id(order, base, flag) in taken
    ensures Ahead(order, base, flag + COLLISION_INC, taken) < Ahead(order, base, flag, taken)
  {
    var here := Candidate(order, base, flag, 0);
    var before, after := Ahead(order, base, flag, taken), Ahead(order, base, flag + COLLISION_INC, taken);
    assert here in before;
    forall s | s in after ensures s in before && s != here {
      var k: nat :| s == Candidate(order, base, flag + COLLISION_INC, k);
      CandidateShift(order, base, flag, 1, k);
      assert s == Candidate(order, base, flag, 1 + k);
      if s == here { CandidateInjective(order, base, flag, 1 + k, 0); }
    }
  }

  /** Bases of equal length never meet, whatever flags and however many probe steps they take. */
  lemma {:induction false} DifferentBases(order: Order, b: string, c: string, f: nat, g: nat)
    requires |b| == |c| && b != c
    ensures Id(order, b, f) != Id(order, c, g)
  {
    var s, t := Id(order, b, f), Id(order, c, g);
    match order {
      case BaseFirst => assert s[..|b|] == b && t[..|c|] == c;
      case FlagFirst => assert s[|s| - |b|..] == b && t[|t| - |c|..] == c;
    }
  }

  /** Two identifiers on bases of equal length are equal just when bases and flags are. */
  lemma {:induction false} IdsMeetIff(order: Order, b: string, c: string, f: nat, g: nat)
    requires |b| == |c|
    ensures Id(order, b, f) == Id(order, c, g) <==> b == c && f == g
  {
    if b != c {
      DifferentBases(order, b, c, f, g);
    } else if Id(order, b, f) == Id(order, b, g) {
      IdInjective(order, b, f, g);
    }
  }

  /** Two probings on one base, the second from `n` steps further on, end at the same flag just when
      everything up to the second one's start is taken. */
  lemma {:induction false} ProbesMeetIff(order: Order, base: string, flag: nat, n: nat, taken: set<string>,
                                         j: nat, k: nat)
    requires LeastFree(order, base, flag, taken, j) && LeastFree(order, base, flag + COLLISION_INC * n, taken, k)
    ensures j == n + k <==> forall m :: 0 <= m < n ==> Candidate(order, base, flag, m) in taken
  {
    CandidateShift(order, base, flag, n, k);
    if forall m :: 0 <= m < n ==> Candidate(order, base, flag, m) in taken {
      forall m | 0 <= m < n + k ensures Candidate(order, base, flag, m) in taken {
        if m >= n { CandidateShift(order, base, flag, n, m - n); }
      }
      LeastFreeUnique(order, base, flag, taken, j, n + k);
    }
  }

  /** With the flag last, identifiers on bases of any length are equal just when the longer base goes
      on where the shorter one ends, with the first digits of the other's flag. */
  lemma {:induction false} IdsMeetIffLonger(b: string, c: string, f: nat, g: nat)
    requires |b| <= |c|
    ensures Id(BaseFirst, b, f) == Id(BaseFirst, c, g) <==> b <= c && Str(f) == c[|b|..] + Str(g)
  {
    var s, t := Id(BaseFirst, b, f), Id(BaseFirst, c, g);
    if s == t {
      assert s[..|b|] == b && t[..|b|] == c[..|b|];
      assert s[|b|..] == Str(f) && t[|b|..] == c[|b|..] + Str(g);
    }
    if b <= c && Str(f) == c[|b|..] + Str(g) {
      assert c == b + c[|b|..];
      assert s == b + (c[|b|..] + Str(g)) == t;
    }
  }

  /** With the flag last, joins on bases of different length can try the same identifier if and only if
      the longer base is the shorter one followed by a positive number. */
  lemma {:induction false} LongerBaseMeetsIff(b: string, c: string)
    requires |b| < |c|
    ensures (exists j: nat, k: nat :: Candidate(BaseFirst, b, 0, j) == Candidate(BaseFirst, c, 0, k))
            <==> exists n: nat :: n >= 1 && c == b + Str(n)
  {
    if j: nat, k: nat :| Candidate(BaseFirst, b, 0, j) == Candidate(BaseFirst, c, 0, k) {
      IdsMeetIffLonger(b, c, COLLISION_INC * j, COLLISION_INC * k);
      var n := StrPrefix(COLLISION_INC * j, c[|b|..]);
      assert c == b + Str(n);
    }
    if n: nat :| n >= 1 && c == b + Str(n) {
      var j := 25 * n + 3;
      TwelveAppended(n);
      assert c[|b|..] == Str(n);
      IdsMeetIffLonger(b, c, COLLISION_INC * j, COLLISION_INC * 3);
      assert Candidate(BaseFirst, b, 0, j) == Candidate(BaseFirst, c, 0, 3);
    }
  }

  lemma {:induction false} TwelveAppended(n: nat)
    requires n >= 1
    ensures Str(4 * (25 * n + 3)) == Str(n) + Str(12)
  {
    var m := 4 * (25 * n + 3);
    assert m / 10 == 10 * n + 1 && m % 10 == 2 && (10 * n + 1) / 10 == n && (10 * n + 1) % 10 == 1;
    assert Str(m) == Str(n) + [Digit(1)] + [Digit(2)];
    assert Str(12) == [Digit(1)] + [Digit(2)];
  }

  /** With the flag in front the longer base ends with the shorter one, and its first characters are the
      last digits of the other's flag. */
  lemma {:induction false} IdsMeetIffLongerFlagFirst(b: string, c: string, f: nat, g: nat)
    requires |b| <= |c|
    ensures var n := |c| - |b|;
            Id(FlagFirst, b, f) == Id(FlagFirst, c, g) <==> c == c[..n] + b && Str(f) == Str(g) + c[..n]
  {
    var s, t, n := Id(FlagFirst, b, f), Id(FlagFirst, c, g), |c| - |b|;
    if s == t {
      assert s[..|s| - |b|] == Str(f) && t[..|t| - |b|] == Str(g) + c[..n];
      assert s[|s| - |b|..] == b && t[|t| - |b|..] == c[n..];
    }
    if c == c[..n] + b && Str(f) == Str(g) + c[..n] {
      assert t == Str(g) + c[..n] + b == s;
    }
  }

  lemma {:induction false} MultiplesOfFour(j: nat, v: int)
    ensures (COLLISION_INC * j - v) % 4 == 0 <==> v % 4 == 0
  {
  }

  lemma {:induction false} MeetingAddsDigits(b: string, c: string, s: string, j: nat, k: nat)
    requires |b| < |c| && s == c[..|c| - |b|]
    requires Candidate(FlagFirst, b, 0, j) == Candidate(FlagFirst, c, 0, k)
    ensures c == s + b && Digits(s) && Value(s) % 4 == 0
  {
    IdsMeetIffLongerFlagFirst(b, c, COLLISION_INC * j, COLLISION_INC * k);
    StrSuffix(COLLISION_INC * j, COLLISION_INC * k, s);
    MultiplesOfFour(j, Value(s));
  }

  lemma {:induction false} DigitsMakeThemMeet(b: string, c: string, s: string) returns (j: nat, k: nat)
    requires |b| < |c| && c == s + b && Digits(s) && Value(s) % 4 == 0
    ensures Candidate(FlagFirst, b, 0, j) == Candidate(FlagFirst, c, 0, k)
  {
    var m := StrAppend(4, s);
    j, k := m / 4, 1;
    assert m == COLLISION_INC * j by { QuotientOfFour(m, Value(s)); }
    assert c[..|c| - |b|] == s;
    IdsMeetIffLongerFlagFirst(b, c, m, 4);
  }

  lemma {:induction false} QuotientOfFour(m: nat, v: int)
    requires (m - v) % 4 == 0 && v % 4 == 0
    ensures m == 4 * (m / 4)
  {
  }

  /** With the flag in front joins on bases of different length can try the same identifier if and only if
      the longer base is the shorter one behind digits that denote a multiple of 4. */
  lemma {:induction false} LongerBaseMeetsIffFlagFirst(b: string, c: string, s: string)
    requires |b| < |c| && s == c[..|c| - |b|]
    ensures (exists j: nat, k: nat :: Candidate(FlagFirst, b, 0, j) == Candidate(FlagFirst, c, 0, k))
            <==> c == s + b && Digits(s) && Value(s) % 4 == 0
  {
    if j: nat, k: nat :| Candidate(FlagFirst, b, 0, j) == Candidate(FlagFirst, c, 0, k) {
      MeetingAddsDigits(b, c, s, j, k);
    }
    if c == s + b && Digits(s) && Value(s) % 4 == 0 {
      var j, k := DigitsMakeThemMeet(b, c, s);
    }
  }

  /** For example base "a" on its tenth collision is base "a4" at once. */
  lemma {:induction false} DifferentLengthBasesCanMeet()
    ensures Candidate(BaseFirst, "a", 0, 10) == Candidate(BaseFirst, "a4", 0, 0)
  {
    assert Str(40) == Str(4) + [Digit(0)] == "40";
    assert Str(0) == "0";
    assert "a" + "40" == "a4" + "0";
  }

  lemma {:induction false} ShiftedProbes(order: Order, base: string, flag: nat, next: nat, taken: set<string>, k: nat)
    requires next == flag + COLLISION_INC
    requires Candidate(order, base, flag, 0) in taken
    requires forall j :: 0 <= j < k ==> Candidate(order, base, next, j) in taken
    ensures Candidate(order, base, next, k) == Candidate(order, base, flag, 1 + k)
    ensures forall j :: 0 <= j < 1 + k ==> Candidate(order, base, flag, j) in taken
  {
    CandidateShift(order, base, flag, 1, k);
    forall j | 0 < j < 1 + k ensures Candidate(order, base, flag, j) in taken {
      CandidateShift(order, base, flag, 1, j - 1);
    }
  }
}
