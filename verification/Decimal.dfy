/** Python's `str` and `"%04d"` on naturals: the printed forms that every identifier of the
    system is glued together from. What matters is that printing loses nothing. */
module Decimal {
  function Digit(d: nat): char
    requires d < 10
  {
    ('0' as int + d) as char
  }

  /** `str(n)` for a natural number. */
  function Str(n: nat): (s: string)
    ensures |s| >= 1
  {
    if n < 10 then [Digit(n)] else Str(n / 10) + [Digit(n % 10)]
  }

  /** The number a digit string denotes, most significant digit first. */
  function Value(s: string): int {
    if s == "" then 0 else 10 * Value(s[..|s| - 1]) + (s[|s| - 1] as int - '0' as int)
  }

  /** Reading back a printed number gives the number. */
  lemma {:induction false} ValueOfStr(n: nat)
    ensures Value(Str(n)) == n
  {
    if n >= 10 {
      ValueOfStr(n / 10);
      var s := Str(n);
      assert s[..|s| - 1] == Str(n / 10);
    } else {
      assert Str(n)[..0] == "";
    }
  }

  lemma {:induction false} StrInjective(a: nat, b: nat)
    requires Str(a) == Str(b)
    ensures a == b
  {
    ValueOfStr(a);
    ValueOfStr(b);
  }

  /** A printed number is made of digits and has no leading zero. */
  lemma {:induction false} StrCanonical(n: nat)
    ensures forall i :: 0 <= i < |Str(n)| ==> '0' <= Str(n)[i] <= '9'
    ensures n > 0 ==> Str(n)[0] != '0'
    ensures n == 0 ==> Str(n) == "0"
  {
    if n >= 10 { StrCanonical(n / 10); }
  }

  /** The first digits of a printed number are a printed number, and a positive one if some follow. */
  lemma {:induction false} StrPrefix(m: nat, s: string) returns (n: nat)
    requires s != "" && s <= Str(m)
    ensures Str(n) == s && (s != Str(m) ==> n >= 1)
  {
    if |s| == |Str(m)| {
      n := m;
    } else {
      assert Str(m)[..|Str(m)| - 1] == Str(m / 10);
      n := StrPrefix(m / 10, s);
    }
  }

  predicate Digits(s: string) {
    forall i :: 0 <= i < |s| ==> '0' <= s[i] <= '9'
  }

  lemma {:induction false} SplitLast(a: string, s: string)
    requires s != ""
    ensures a + s == a + s[..|s| - 1] + [s[|s| - 1]]
  {
  }

  lemma {:induction false} OneMoreDigit(n: nat, d: nat)
    requires n >= 1 && d < 10
    ensures Str(10 * n + d) == Str(n) + [Digit(d)]
  {
    assert (10 * n + d) / 10 == n && (10 * n + d) % 10 == d;
  }

  lemma {:induction false} LastDigit(s: string) returns (d: nat)
    requires s != "" && Digits(s)
    ensures Digits(s[..|s| - 1]) && d < 10 && s[|s| - 1] == Digit(d) && Value(s) == 10 * Value(s[..|s| - 1]) + d
  {
    d := s[|s| - 1] as nat - '0' as nat;
  }

  /** Digits put behind a positive multiple of 4 make a number with the same remainder modulo 4 as the
      number those digits denote. */
  lemma {:induction false} StrAppend(n: nat, s: string) returns (m: nat)
    requires n >= 1 && n % 4 == 0 && Digits(s)
    ensures Str(m) == Str(n) + s && m >= 1 && (m - Value(s)) % 4 == 0
  {
    if s == "" {
      m := n;
      assert Str(n) + "" == Str(n);
    } else {
      var d := LastDigit(s);
      var before := StrAppend(n, s[..|s| - 1]);
      m := 10 * before + d;
      OneMoreDigit(before, d);
      SplitLast(Str(n), s);
      SameRemainder(before, Value(s[..|s| - 1]), d);
    }
  }

  lemma {:induction false} SameRemainder(m: int, v: int, d: int)
    requires (m - v) % 4 == 0
    ensures (10 * m + d - (10 * v + d)) % 4 == 0
  {
    var q := (m - v) / 4;
    assert 10 * m + d - (10 * v + d) == 4 * (10 * q);
  }

  /** And the other way round. */
  lemma {:induction false} StrSuffix(m: nat, n: nat, s: string)
    requires Str(m) == Str(n) + s && n % 4 == 0
    ensures Digits(s) && (m - Value(s)) % 4 == 0
  {
    if s == "" {
      assert Str(n) + "" == Str(n);
      StrInjective(m, n);
    } else {
      SplitLast(Str(n), s);
      LastOf(m, Str(n) + s[..|s| - 1], s[|s| - 1]);
      StrSuffix(m / 10, n, s[..|s| - 1]);
      DigitsAppended(s, m % 10);
      SameRemainder(m / 10, Value(s[..|s| - 1]), m % 10);
    }
  }

  lemma {:induction false} LastOf(m: nat, before: string, last: char)
    requires before != "" && Str(m) == before + [last]
    ensures Str(m / 10) == before && last == Digit(m % 10)
  {
    assert (before + [last])[..|before|] == before;
    assert m >= 10 ==> Str(m)[..|Str(m)| - 1] == Str(m / 10);
  }

  lemma {:induction false} DigitsAppended(s: string, d: nat)
    requires s != "" && d < 10 && s[|s| - 1] == Digit(d) && Digits(s[..|s| - 1])
    ensures Digits(s) && Value(s) == 10 * Value(s[..|s| - 1]) + d
  {
    forall i | 0 <= i < |s| ensures '0' <= s[i] <= '9' {
      if i < |s| - 1 { assert s[..|s| - 1][i] == s[i]; }
    }
  }

  function Zeros(n: nat): (s: string)
    ensures |s| == n && forall i :: 0 <= i < n ==> s[i] == '0'
  {
    seq(n, _ => '0')
  }

  /** `"%04d" % n`: padded to four characters, and simply longer from 10000 on. */
  function Pad4(n: nat): (s: string)
    ensures |s| >= 4
  {
    var s := Str(n);
    if |s| < 4 then Zeros(4 - |s|) + s else s
  }

  lemma {:induction false} LeadingZeros(z: nat, s: string)
    ensures Value(Zeros(z) + s) == Value(s)
  {
    var t := Zeros(z) + s;
    if s == "" {
      if z > 0 {
        assert t[..|t| - 1] == Zeros(z - 1) + s;
        LeadingZeros(z - 1, s);
      }
    } else {
      assert t[..|t| - 1] == Zeros(z) + s[..|s| - 1];
      LeadingZeros(z, s[..|s| - 1]);
    }
  }

  /** Padding loses nothing either, on both sides of 9999. */
  lemma {:induction false} ValueOfPad4(n: nat)
    ensures Value(Pad4(n)) == n
    ensures |Pad4(n)| == 4 || Pad4(n) == Str(n)
  {
    ValueOfStr(n);
    var s := Str(n);
    if |s| < 4 {
      LeadingZeros(4 - |s|, s);
    }
  }
}
