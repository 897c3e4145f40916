/** Decimal numerals: `format!("{n}")` and `str::parse` on unsigned integers. */
module Decimal {
  import opened Bytes

  predicate IsDigit(b: byte) {
    48 <= b <= 57
  }

  predicate AllDigits(s: Text) {
    forall i :: 0 <= i < |s| ==> IsDigit(s[i])
  }

  /** The numeral of `n`, without leading zeros. */
  function Digits(n: nat): (s: Text)
    ensures s != [] && AllDigits(s)
  {
    if n < 10 then [48 + n] else Digits(n / 10) + [48 + n % 10]
  }

  /** The number a digit string denotes; leading zeros allowed. */
  function Value(s: Text): nat
    requires AllDigits(s)
  {
    if s == [] then 0 else 10 * Value(s[..|s| - 1]) + (s[|s| - 1] - 48)
  }

  /** Parse a non-empty digit string no larger than `max`. */
  function Parse(s: Text, max: nat): Option<nat> {
    if s != [] && AllDigits(s) && Value(s) <= max then Some(Value(s)) else None
  }

  lemma {:induction false} ValueOfDigits(n: nat)
    ensures Value(Digits(n)) == n
    ensures n > 0 ==> Digits(n)[0] != 48
  {
    if n >= 10 {
      ValueOfDigits(n / 10);
      assert Digits(n)[..|Digits(n)| - 1] == Digits(n / 10);
    } else {
      assert Digits(n)[..0] == [];
      assert Value(Digits(n)[..0]) == 0;
    }
  }

  /** A numeral is a digit string that does not start with zero. */
  predicate Canonical(s: Text) {
    s != [] && AllDigits(s) && s[0] != 48
  }

  lemma {:induction false} DigitsOfValue(s: Text)
    requires Canonical(s)
    ensures Value(s) > 0
    ensures Digits(Value(s)) == s
  {
    var front := s[..|s| - 1];
    assert s == front + [s[|s| - 1]];
    if front != [] {
      DigitsOfValue(front);
    } else {
      assert Value(front) == 0;
    }
  }

  /** Appending digits multiplies: a proper prefix of a numeral is at least ten times smaller. */
  lemma {:induction false} ValueOfLonger(p: Text, d: Text)
    requires AllDigits(p) && AllDigits(d)
    ensures AllDigits(p + d)
    ensures Value(p + d) >= Value(p)
    ensures d != [] ==> Value(p + d) >= 10 * Value(p)
  {
    if d == [] {
      assert p + d == p;
    } else {
      ValueOfLonger(p, d[..|d| - 1]);
      assert (p + d)[..|p + d| - 1] == p + d[..|d| - 1];
    }
  }
}
