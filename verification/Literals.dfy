/** String literals: QUOTE, quote doubling, and reading a literal back. */
module Literals {

  const NUL := '\0'
  const BACKSLASH := '\\'
  const QUOTE := '\''

  /** What a backslash and `c` stand for. */
  function Escape(c: char): char {
    if c == '0' then NUL
    else if c == 'b' then '\U{8}'
    else if c == 'n' then '\n'
    else if c == 'r' then '\r'
    else if c == 't' then '\t'
    else if c == 'Z' then '\U{1A}'
    else c
  }

  /** `_unescapeLiteral`: left to right, two quotes are one, and a backslash with what follows is one
      character, except before '%' and '_'. */
  function Unescape(raw: string, quote: char): string {
    if raw == [] then []
    else if |raw| >= 2 && raw[0] == quote && raw[1] == quote then [quote] + Unescape(raw[2..], quote)
    else if |raw| >= 2 && raw[0] == BACKSLASH then
      (if raw[1] == '%' || raw[1] == '_' then raw[..2] else [Escape(raw[1])]) + Unescape(raw[2..], quote)
    else [raw[0]] + Unescape(raw[1..], quote)
  }

  /** `str.replace(/[\\']/g, '\\$&')` */
  function EscapeQuotes(s: string): string {
    if s == [] then [] else
      (if s[0] == BACKSLASH || s[0] == QUOTE then [BACKSLASH, s[0]] else [s[0]]) + EscapeQuotes(s[1..])
  }

  /** `str.replace(/\0/g, '\\0')` */
  function EscapeNul(s: string): string {
    if s == [] then [] else (if s[0] == NUL then [BACKSLASH, '0'] else [s[0]]) + EscapeNul(s[1..])
  }

  /** QUOTE(s) of a string. */
  function Quoted(s: string): string {
    [QUOTE] + EscapeNul(EscapeQuotes(s)) + [QUOTE]
  }

  /** `replaceAll("'", "''")`, as `_literalFor` writes the keys it looks for. */
  function Doubled(s: string): string {
    if s == [] then [] else (if s[0] == QUOTE then [QUOTE, QUOTE] else [s[0]]) + Doubled(s[1..])
  }

  lemma EscapeNulConcat(a: string, b: string)
    ensures EscapeNul(a + b) == EscapeNul(a) + EscapeNul(b)
  {
    if a == [] {
      assert a + b == b;
    } else {
      assert (a + b)[1..] == a[1..] + b;
      EscapeNulConcat(a[1..], b);
    }
  }

  /** Reading QUOTE(s) back gives s, for every string. */
  lemma QuoteRoundTrip(s: string)
    ensures |Quoted(s)| >= 2
    ensures Unescape(Quoted(s)[1..|Quoted(s)| - 1], QUOTE) == s
  {
    assert Quoted(s)[1..|Quoted(s)| - 1] == EscapeNul(EscapeQuotes(s));
    InnerRoundTrip(s);
  }

  lemma {:induction false} InnerRoundTrip(s: string)
    ensures Unescape(EscapeNul(EscapeQuotes(s)), QUOTE) == s
  {
    hide Unescape, EscapeNul;
    if s == [] {
      NothingEscaped();
    } else {
      var first := if s[0] == BACKSLASH || s[0] == QUOTE then [BACKSLASH, s[0]] else [s[0]];
      EscapeNulConcat(first, EscapeQuotes(s[1..]));
      FirstEscaped(s[0], first);
      FirstReadBack(s[0], EscapeNul(EscapeQuotes(s[1..])));
      InnerRoundTrip(s[1..]);
    }
  }

  lemma NothingEscaped()
    ensures Unescape(EscapeNul([]), QUOTE) == []
  {
  }

  /** How QUOTE writes one character. */
  function Written(c: char): string {
    if c == BACKSLASH || c == QUOTE then [BACKSLASH, c] else if c == NUL then [BACKSLASH, '0'] else [c]
  }

  lemma FirstEscaped(c: char, first: string)
    requires first == if c == BACKSLASH || c == QUOTE then [BACKSLASH, c] else [c]
    ensures EscapeNul(first) == Written(c)
  {
    assert EscapeNul([c]) == (if c == NUL then [BACKSLASH, '0'] else [c]) + EscapeNul([]);
    if c == BACKSLASH || c == QUOTE {
      assert first[1..] == [c];
    }
  }

  lemma FirstReadBack(c: char, rest: string)
    ensures Unescape(Written(c) + rest, QUOTE) == [c] + Unescape(rest, QUOTE)
  {
    var text := Written(c);
    assert (text + rest)[|text|..] == rest;
  }

  // ----- Doubling only -----

  /** Every backslash is the last character or comes before '%' or '_'. */
  predicate BackslashesKept(s: string) {
    forall i :: 0 <= i < |s| && s[i] == BACKSLASH ==> i == |s| - 1 || s[i + 1] == '%' || s[i + 1] == '_'
  }

  /** Unescaping never makes a doubled string longer than it was, even after a quote left over. */
  lemma {:induction false} NotLonger(s: string)
    ensures |Unescape(Doubled(s), QUOTE)| <= |s|
    ensures |Unescape([QUOTE] + Doubled(s), QUOTE)| <= |s| + 1
    decreases |s|
  {
    var d := Doubled(s);
    if s == [] {
      assert ([QUOTE] + d)[1..] == [];
    } else {
      var rest := Doubled(s[1..]);
      NotLonger(s[1..]);
      if s[0] == QUOTE {
        assert d == [QUOTE, QUOTE] + rest && d[2..] == rest;
        assert ([QUOTE] + d)[2..] == [QUOTE] + rest;
      } else {
        assert d == [s[0]] + rest && d[1..] == rest;
        assert ([QUOTE] + d)[1..] == d;
        if s[0] == BACKSLASH && |s| >= 2 {
          NotLonger(s[2..]);
          AfterBackslash(s);
          assert d[2..] == (if s[1] == QUOTE then [QUOTE] else []) + Doubled(s[2..]);
          if s[1] != QUOTE {
            assert d[2..] == Doubled(s[2..]);
          }
          assert |Unescape(d[2..], QUOTE)| <= |s| - 1;
        }
      }
    }
  }

  lemma AfterBackslash(s: string)
    requires |s| >= 2 && s[0] == BACKSLASH
    ensures Doubled(s)[0] == BACKSLASH && |Doubled(s)| >= 2 && Doubled(s)[1] == s[1]
    ensures Doubled(s)[2..] == (if s[1] == QUOTE then [QUOTE] else []) + Doubled(s[2..])
  {
    assert Doubled(s) == [BACKSLASH] + Doubled(s[1..]);
    assert s[1..][1..] == s[2..];
    var t := if s[1] == QUOTE then [QUOTE, QUOTE] else [s[1]];
    assert Doubled(s[1..]) == t + Doubled(s[2..]);
    assert Doubled(s) == [BACKSLASH] + t + Doubled(s[2..]);
  }

  /** Doubling is undone by unescaping if and only if every backslash is the last character or comes
      before '%' or '_'; for a string without backslashes it always is. */
  lemma {:induction false} DoubleRoundTripIff(s: string)
    ensures Unescape(Doubled(s), QUOTE) == s <==> BackslashesKept(s)
    decreases |s|
  {
    if s == [] {
      return;
    }
    var d, rest := Doubled(s), s[1..];
    KeptSplit(s);
    if s[0] != BACKSLASH || |s| == 1 {
      var t := if s[0] == QUOTE then [QUOTE, QUOTE] else [s[0]];
      assert d == t + Doubled(rest) && d[|t|..] == Doubled(rest);
      assert Unescape(d, QUOTE) == [s[0]] + Unescape(Doubled(rest), QUOTE);
      DoubleRoundTripIff(rest);
      assert s == [s[0]] + rest;
    } else {
      AfterBackslash(s);
      var tail := d[2..];
      if s[1] == '%' || s[1] == '_' {
        assert tail == Doubled(s[2..]) && d[..2] == s[..2];
        assert Unescape(d, QUOTE) == s[..2] + Unescape(tail, QUOTE);
        DoubleRoundTripIff(s[2..]);
        assert s == s[..2] + s[2..];
      } else {
        EscapeLost(s);
      }
    }
  }

  /** A backslash that escapes the next character is lost. */
  lemma EscapeLost(s: string)
    requires |s| >= 2 && s[0] == BACKSLASH && s[1] != '%' && s[1] != '_'
    ensures Unescape(Doubled(s), QUOTE) != s
  {
    AfterBackslash(s);
    var d := Doubled(s);
    assert Unescape(d, QUOTE) == [Escape(s[1])] + Unescape(d[2..], QUOTE);
    if s[1] == BACKSLASH {
      NotLonger(s[2..]);
      assert d[2..] == Doubled(s[2..]);
    } else {
      assert Unescape(d, QUOTE)[0] == Escape(s[1]) != BACKSLASH;
    }
  }

  lemma KeptSplit(s: string)
    requires s != []
    ensures s[0] != BACKSLASH || |s| == 1 ==> (BackslashesKept(s) <==> BackslashesKept(s[1..]))
    ensures |s| >= 2 && s[0] == BACKSLASH && (s[1] == '%' || s[1] == '_') ==>
            (BackslashesKept(s) <==> BackslashesKept(s[2..]))
    ensures |s| >= 2 && s[0] == BACKSLASH && s[1] != '%' && s[1] != '_' ==> !BackslashesKept(s)
  {
    assert forall i :: 1 <= i < |s| ==> s[i] == s[1..][i - 1];
    if |s| >= 2 {
      assert forall i :: 2 <= i < |s| ==> s[i] == s[2..][i - 2];
    }
    if BackslashesKept(s[1..]) {
      forall i | 1 <= i < |s| && s[i] == BACKSLASH
        ensures i == |s| - 1 || s[i + 1] == '%' || s[i + 1] == '_'
      {
        assert s[1..][i - 1] == BACKSLASH;
      }
    }
    if |s| >= 2 && BackslashesKept(s[2..]) {
      forall i | 2 <= i < |s| && s[i] == BACKSLASH
        ensures i == |s| - 1 || s[i + 1] == '%' || s[i + 1] == '_'
      {
        assert s[2..][i - 2] == BACKSLASH;
      }
    }
  }
}
