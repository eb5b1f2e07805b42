/** Strings as JavaScript has them: sequences of UTF-16 code units, whose surrogates need not be paired. */
module Utf16 {
  import opened Decimal

  type Unit = u: int | 0 <= u < 0x1_0000

  type Text = seq<Unit>

  const TAB: Unit := 0x09
  const LINE_FEED: Unit := 0x0A
  const FORM_FEED: Unit := 0x0C
  const RETURN: Unit := 0x0D
  const BACKSPACE: Unit := 0x08
  const SPACE: Unit := 0x20
  const QUOTE: Unit := 0x22
  const DOLLAR: Unit := 0x24
  const STAR: Unit := 0x2A
  const MINUS: Unit := 0x2D
  const DOT: Unit := 0x2E
  const ZERO: Unit := 0x30
  const OPEN: Unit := 0x5B
  const BACKSLASH: Unit := 0x5C
  const CLOSE: Unit := 0x5D
  const UNDERSCORE: Unit := 0x5F

  function Ascii(s: string): Text
    requires forall i :: 0 <= i < |s| ==> s[i] < '\U{80}'
  {
    seq(|s|, i requires 0 <= i < |s| => s[i] as int)
  }

  // ----- Surrogates -----

  /** The first half of a pair. */
  predicate IsLead(u: Unit) {
    0xD800 <= u < 0xDC00
  }

  /** The second half. */
  predicate IsTrail(u: Unit) {
    0xDC00 <= u < 0xE000
  }

  /** The unit at `i` is no surrogate, or half of a pair. */
  predicate PairedAt(s: Text, i: nat)
    requires i < |s|
  {
    && (IsLead(s[i]) ==> i + 1 < |s| && IsTrail(s[i + 1]))
    && (IsTrail(s[i]) ==> i > 0 && IsLead(s[i - 1]))
  }

  /** Every surrogate is half of a pair. */
  predicate WellFormed(s: Text) {
    forall i :: 0 <= i < |s| ==> PairedAt(s, i)
  }

  /** A text starts with a pair, or with one unit. */
  function FirstLength(s: Text): (n: nat)
    requires s != []
    ensures 1 <= n <= |s| && n <= 2
  {
    if |s| >= 2 && IsLead(s[0]) && IsTrail(s[1]) then 2 else 1
  }

  /** Whether the rest of a text is paired does not depend on its front. */
  lemma PairedRest(s: Text, n: nat, i: nat)
    requires n <= i < |s| && (n == i > 0 ==> !IsLead(s[n - 1]))
    ensures PairedAt(s, i) <==> PairedAt(s[n..], i - n)
  {
    var rest := s[n..];
    assert rest[i - n] == s[i] && (i + 1 < |s| ==> rest[i + 1 - n] == s[i + 1]);
    assert i > n ==> rest[i - 1 - n] == s[i - 1];
  }

  lemma WellFormedFirst(s: Text)
    requires s != []
    ensures
      var n := FirstLength(s);
      WellFormed(s) <==> (n == 2 || !(IsLead(s[0]) || IsTrail(s[0]))) && WellFormed(s[n..])
  {
    var n := FirstLength(s);
    if n == 2 || !(IsLead(s[0]) || IsTrail(s[0])) {
      forall i | n <= i < |s|
        ensures PairedAt(s, i) <==> PairedAt(s[n..], i - n)
      {
        PairedRest(s, n, i);
      }
      assert forall i :: 0 <= i < n ==> PairedAt(s, i);
      if WellFormed(s) {
        forall i | 0 <= i < |s[n..]|
          ensures PairedAt(s[n..], i)
        {
          assert PairedAt(s, i + n);
        }
      }
    } else {
      assert !PairedAt(s, 0);
    }
  }

  // ----- Numerals -----

  predicate IsDigit(u: Unit) {
    ZERO <= u < ZERO + 10
  }

  predicate AllDigits(s: Text) {
    s != [] && forall i :: 0 <= i < |s| ==> IsDigit(s[i])
  }

  function ValueOf(s: Text): nat
    requires AllDigits(s)
  {
    Value(seq(|s|, i requires 0 <= i < |s| => s[i] - ZERO))
  }

  function Numeral(n: nat): Text {
    seq(|Digits(n)|, i requires 0 <= i < |Digits(n)| => ZERO + Digits(n)[i])
  }

  /** Writing a number and reading it back. */
  lemma NumeralRoundTrip(n: nat)
    ensures AllDigits(Numeral(n)) && ValueOf(Numeral(n)) == n
  {
    DigitsRoundTrip(n);
    var s := Numeral(n);
    assert seq(|s|, i requires 0 <= i < |s| => s[i] - ZERO) == Digits(n);
  }
}
