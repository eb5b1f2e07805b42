/** Decimal notation of natural numbers. */
module Decimal {

  type Digit = d: int | 0 <= d < 10

  function Digits(n: nat): seq<Digit> {
    if n < 10 then [n] else Digits(n / 10) + [n % 10]
  }

  function Value(s: seq<Digit>): nat {
    if s == [] then 0 else Value(s[..|s| - 1]) * 10 + s[|s| - 1]
  }

  /** Writing a number and reading it back. */
  lemma {:induction false} DigitsRoundTrip(n: nat)
    ensures Digits(n) != [] && Value(Digits(n)) == n
  {
    var s := Digits(n);
    if n < 10 {
      assert s[..0] == [];
    } else {
      DigitsRoundTrip(n / 10);
      assert s[..|s| - 1] == Digits(n / 10);
    }
  }

  lemma DigitsInjective(n: nat, m: nat)
    requires Digits(n) == Digits(m)
    ensures n == m
  {
    DigitsRoundTrip(n);
    DigitsRoundTrip(m);
  }
}
