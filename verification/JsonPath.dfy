/** The JSON path parser, and the path text that JSON_SEARCH writes. */
module JsonPath {
  import opened Common
  import opened Utf16
  import opened Json

  datatype ParseError = Invalid(position: nat) | Wildcard

  datatype Parsed<T> = Ok(value: T) | Err(error: ParseError)

  // ----- Characters -----

  /** What `\s` matches and `trim` removes. */
  predicate IsSpace(c: Unit) {
    || TAB <= c <= RETURN || c == SPACE || c == 0xA0 || c == 0x1680 || 0x2000 <= c <= 0x200A
    || c == 0x2028 || c == 0x2029 || c == 0x202F || c == 0x205F || c == 0x3000 || c == 0xFEFF
  }

  /** What `.` does not match in a regular expression. */
  predicate IsLineEnd(c: Unit) {
    c == LINE_FEED || c == RETURN || c == 0x2028 || c == 0x2029
  }

  predicate OneLine(s: Text) {
    forall i :: 0 <= i < |s| ==> !IsLineEnd(s[i])
  }

  function DropSpace(s: Text): Text {
    if s != [] && IsSpace(s[0]) then DropSpace(s[1..]) else s
  }

  function DropSpaceEnd(s: Text): Text {
    if s != [] && IsSpace(s[|s| - 1]) then DropSpaceEnd(s[..|s| - 1]) else s
  }

  function Trim(s: Text): Text {
    DropSpaceEnd(DropSpace(s))
  }

  function IndexOf(s: Text, c: Unit, from: nat): (i: Option<nat>)
    requires from <= |s|
    ensures i.Some? ==> from <= i.value < |s| && s[i.value] == c && c !in s[from..i.value]
    ensures i.None? ==> c !in s[from..]
    decreases |s| - from
  {
    if from == |s| then None else if s[from] == c then Some(from) else IndexOf(s, c, from + 1)
  }

  // ----- The parser -----

  /** `_parseIndexBound`. */
  function ParseBound(text: Text): Option<Bound> {
    if |text| >= 4 && text[..4] == Ascii("last") then
      var rest := DropSpace(text[4..]);
      if rest == [] then Some(Bound(0, true))
      else if rest[0] == MINUS && AllDigits(DropSpace(rest[1..])) then Some(Bound(ValueOf(DropSpace(rest[1..])), true))
      else None
    else if AllDigits(text) then Some(Bound(ValueOf(text), false))
    else None
  }

  /** What follows spaces, "to" and spaces, if that is what `s` starts with. */
  function AfterTo(s: Text): Option<Text> {
    var rest := DropSpace(s);
    if rest == s || |rest| < 2 || rest[..2] != Ascii("to") then None else
      var last := DropSpace(rest[2..]);
      if last == rest[2..] || last == [] || !OneLine(last) then None else Some(last)
  }

  /** The two ends of a range, split at the first "to". */
  function SplitRange(inner: Text, from: nat): Option<(Text, Text)>
    decreases |inner| - from
  {
    if from >= |inner| then None
    else if from >= 1 && OneLine(inner[..from]) && AfterTo(inner[from..]).Some? then
      Some((inner[..from], AfterTo(inner[from..]).value))
    else SplitRange(inner, from + 1)
  }

  /** What stands in brackets. */
  function ParseCell(inner: Text, position: nat, allowRange: bool): Parsed<Segment> {
    if inner == [STAR] then Err(Wildcard) else
      match SplitRange(inner, 0)
      case None =>
        var at := ParseBound(inner);
        if at.None? then Err(Invalid(position)) else Ok(Index(at.value))
      case Some((a, b)) =>
        if !allowRange then Err(Wildcard) else
          var first, last := ParseBound(a), ParseBound(b);
          if first.None? || last.None? ||
             (!first.value.fromLast && !last.value.fromLast && first.value.index > last.value.index)
          then Err(Invalid(position))
          else Ok(Range(first.value, last.value))
  }

  /** A character of an unquoted key. */
  predicate IsPlain(c: Unit) {
    c != DOT && c != OPEN && c != CLOSE && c != QUOTE && c != STAR && !IsSpace(c)
  }

  /** The end of the run of plain characters that starts at `from`. */
  function PlainEnd(s: Text, from: nat): (end: nat)
    requires from <= |s|
    ensures from <= end <= |s| && (forall i :: from <= i < end ==> IsPlain(s[i]))
    ensures end < |s| ==> !IsPlain(s[end])
    decreases |s| - from
  {
    if from < |s| && IsPlain(s[from]) then PlainEnd(s, from + 1) else from
  }

  /** A key, quoted or not, and where it ends. */
  function ParseKey(path: Text, pos: nat): (r: Option<(Text, nat)>)
    requires pos <= |path|
    ensures r.Some? ==> pos < r.value.1 <= |path|
  {
    if pos < |path| && path[pos] == QUOTE then
      var end := IndexOf(path, QUOTE, pos + 1);
      if end.None? || end.value == pos + 1 then None else Some((path[pos + 1..end.value], end.value + 1))
    else
      var end := PlainEnd(path, pos);
      if end == pos then None else Some((path[pos..end], end))
  }

  /** One step of a path, and where it ends. */
  function ParseStep(path: Text, pos: nat, allowRange: bool): (r: Parsed<(Segment, nat)>)
    requires pos < |path|
    ensures r.Ok? ==> pos < r.value.1 <= |path|
  {
    if path[pos] == STAR then Err(Wildcard)
    else if path[pos] == DOT then
      if pos + 1 < |path| && path[pos + 1] == STAR then Err(Wildcard) else
        match ParseKey(path, pos + 1)
        case None => Err(Invalid(pos + 2))
        case Some((key, next)) => Ok((Key(key), next))
    else if path[pos] == OPEN then
      match IndexOf(path, CLOSE, pos)
      case None => Err(Invalid(pos + 1))
      case Some(end) =>
        match ParseCell(Trim(path[pos + 1..end]), pos + 1, allowRange)
        case Err(e) => Err(e)
        case Ok(segment) => Ok((segment, end + 1))
    else Err(Invalid(pos + 1))
  }

  function ParseFrom(path: Text, pos: nat, allowRange: bool): Parsed<Path>
    requires pos <= |path|
    decreases |path| - pos
  {
    if pos == |path| then Ok([]) else
      match ParseStep(path, pos, allowRange)
      case Err(e) => Err(e)
      case Ok((segment, next)) => Prepend([segment], ParseFrom(path, next, allowRange))
  }

  function Prepend(front: Path, rest: Parsed<Path>): Parsed<Path> {
    match rest
    case Err(e) => Err(e)
    case Ok(segments) => Ok(front + segments)
  }

  function Parse(path: Text, allowRange: bool): Parsed<Path> {
    if path == [] || path[0] != DOLLAR then Err(Invalid(1)) else ParseFrom(path, 1, allowRange)
  }

  /** `_parsePath`. */
  method ParsePath(path: Text, allowRange: bool) returns (result: Parsed<Path>)
    ensures result == Parse(path, allowRange)
  {
    hide ParseStep;
    if path == [] || path[0] != DOLLAR {
      return Err(Invalid(1));
    }
    var segments, pos := [], 1;
    assert ParseFrom(path, 1, allowRange).Ok? ==>
           [] + ParseFrom(path, 1, allowRange).value == ParseFrom(path, 1, allowRange).value;
    while pos < |path|
      invariant 1 <= pos <= |path|
      invariant ParseFrom(path, 1, allowRange) == Prepend(segments, ParseFrom(path, pos, allowRange))
      decreases |path| - pos
    {
      var step := ParseStep(path, pos, allowRange);
      if step.Err? {
        return Err(step.error);
      }
      ghost var rest := ParseFrom(path, step.value.1, allowRange);
      assert rest.Ok? ==> segments + ([step.value.0] + rest.value) == segments + [step.value.0] + rest.value;
      segments, pos := segments + [step.value.0], step.value.1;
    }
    assert segments + [] == segments;
    result := Ok(segments);
  }

  // ----- Path text -----

  predicate IsLetter(c: Unit) {
    'A' as int <= c <= 'Z' as int || 'a' as int <= c <= 'z' as int || c == UNDERSCORE
  }

  predicate IsName(key: Text) {
    key != [] && IsLetter(key[0]) && forall i :: 0 <= i < |key| ==> IsLetter(key[i]) || IsDigit(key[i])
  }

  function HexDigit(d: nat): Unit
    requires d < 16
  {
    if d < 10 then ZERO + d else 'a' as int + d - 10
  }

  /** Backslash, 'u' and four hexadecimal digits. */
  function UnicodeEscape(c: Unit): Text {
    [BACKSLASH, 'u' as int, HexDigit(c / 0x1000), HexDigit(c / 0x100 % 16), HexDigit(c / 16 % 16), HexDigit(c % 16)]
  }

  /** The units that `JSON.stringify` escapes by themselves. */
  function EscapeUnit(c: Unit): Text {
    if c == QUOTE then [BACKSLASH, QUOTE]
    else if c == BACKSLASH then [BACKSLASH, BACKSLASH]
    else if c == BACKSPACE then [BACKSLASH, 'b' as int]
    else if c == FORM_FEED then [BACKSLASH, 'f' as int]
    else if c == LINE_FEED then [BACKSLASH, 'n' as int]
    else if c == RETURN then [BACKSLASH, 'r' as int]
    else if c == TAB then [BACKSLASH, 't' as int]
    else if c < SPACE || IsLead(c) || IsTrail(c) then UnicodeEscape(c)
    else [c]
  }

  /** What `JSON.stringify` writes between the quotes, as section 25.5.2.3 of ECMA-262 has it: a surrogate
      is escaped unless it is half of a pair. */
  function Escaped(s: Text): Text {
    if s == [] then [] else
      var n := FirstLength(s);
      (if n == 2 then s[..2] else EscapeUnit(s[0])) + Escaped(s[n..])
  }

  /** `_pathKey`. */
  function PathKey(key: Text): Text {
    if IsName(key) then [DOT] + key else [DOT, QUOTE] + Escaped(key) + [QUOTE]
  }

  function StepText(segment: Segment): Text
    requires Canonical([segment])
  {
    assert Canonical([segment]) && [segment][0] == segment;
    if segment.Key? then PathKey(segment.key) else [OPEN] + Numeral(segment.at.index) + [CLOSE]
  }

  /** Steps as JSON_SEARCH writes them: members, and indexes counted from the front. */
  predicate Canonical(path: Path) {
    forall i :: 0 <= i < |path| ==> path[i].Key? || (path[i].Index? && !path[i].at.fromLast)
  }

  function StepsText(path: Path): Text
    requires Canonical(path)
  {
    if path == [] then [] else StepText(path[0]) + StepsText(path[1..])
  }

  function PathText(path: Path): Text
    requires Canonical(path)
  {
    [DOLLAR] + StepsText(path)
  }

  /** No quote, backslash or control character. */
  predicate CleanUnit(c: Unit) {
    c != QUOTE && c != BACKSLASH && c >= SPACE
  }

  predicate AllClean(s: Text) {
    WellFormed(s) && forall i :: 0 <= i < |s| ==> CleanUnit(s[i])
  }

  predicate Clean(key: Text) {
    key != [] && AllClean(key)
  }

  predicate CleanSteps(path: Path) {
    forall i :: 0 <= i < |path| && path[i].Key? ==> Clean(path[i].key)
  }

  lemma AllCleanFirst(s: Text)
    requires s != []
    ensures
      var n := FirstLength(s);
      AllClean(s) <==> (n == 2 || EscapeUnit(s[0]) == [s[0]]) && AllClean(s[n..])
  {
    WellFormedFirst(s);
    var n := FirstLength(s);
    assert forall i :: n <= i < |s| ==> s[i] == s[n..][i - n];
    if AllClean(s[n..]) && (n == 2 || EscapeUnit(s[0]) == [s[0]]) {
      forall i | 0 <= i < |s|
        ensures CleanUnit(s[i])
      {
        assert i >= n ==> s[i] == s[n..][i - n];
      }
    }
  }

  /** Nothing is escaped iff there is nothing to escape. */
  lemma {:induction false} EscapedClean(s: Text)
    ensures |Escaped(s)| >= |s|
    ensures AllClean(s) <==> Escaped(s) == s
    ensures AllClean(s) <==> |Escaped(s)| == |s|
  {
    hide AllClean;
    if s == [] {
      NothingIsClean();
    } else {
      var n := FirstLength(s);
      var first := if n == 2 then s[..2] else EscapeUnit(s[0]);
      AllCleanFirst(s);
      EscapedClean(s[n..]);
      SameParts(s, n, first, Escaped(s[n..]));
    }
  }

  lemma NothingIsClean()
    ensures AllClean([])
  {
  }

  /** A part no shorter than the front of `s`, and one no shorter than the rest. */
  lemma SameParts(s: Text, n: nat, first: Text, rest: Text)
    requires n <= |s| && |first| >= n && |rest| >= |s| - n
    ensures first + rest == s <==> first == s[..n] && rest == s[n..]
    ensures |first + rest| == |s| <==> |first| == n && |rest| == |s| - n
  {
    assert s == s[..n] + s[n..];
    if first + rest == s {
      assert |first| == n;
      assert (first + rest)[..n] == first && (first + rest)[n..] == rest;
    }
  }

  // ----- Reading back what was written -----

  lemma {:induction false} StepsTextConcat(a: Path, b: Path)
    requires Canonical(a) && Canonical(b)
    ensures Canonical(a + b) && StepsText(a + b) == StepsText(a) + StepsText(b)
  {
    hide StepText;
    if a == [] {
      assert a + b == b;
    } else {
      assert (a + b)[1..] == a[1..] + b && (a + b)[0] == a[0];
      StepsTextConcat(a[1..], b);
      assert Canonical(a + b) && Canonical([a[0]]);
      assert StepText(a[0]) + (StepsText(a[1..]) + StepsText(b)) == StepText(a[0]) + StepsText(a[1..]) + StepsText(b);
    }
  }

  lemma {:induction false} IndexOfIs(s: Text, c: Unit, from: nat, i: nat)
    requires from <= i < |s| && s[i] == c && forall k :: from <= k < i ==> s[k] != c
    ensures IndexOf(s, c, from) == Some(i)
    decreases i - from
  {
    if from < i {
      IndexOfIs(s, c, from + 1, i);
    }
  }

  lemma {:induction false} PlainEndIs(s: Text, from: nat, end: nat)
    requires from <= end <= |s| && (forall i :: from <= i < end ==> IsPlain(s[i]))
    requires end < |s| ==> !IsPlain(s[end])
    ensures PlainEnd(s, from) == end
    decreases end - from
  {
    if from < end {
      PlainEndIs(s, from + 1, end);
    }
  }

  lemma {:induction false} NoSplit(s: Text, from: nat)
    requires AllDigits(s)
    ensures SplitRange(s, from).None?
    decreases |s| - from
  {
    if from < |s| {
      var rest := s[from..];
      assert !IsSpace(rest[0]) by {
        assert IsDigit(s[from]);
      }
      NoSplit(s, from + 1);
    }
  }

  /** Decimal digits in brackets are that index. */
  lemma CellIsIndex(n: nat, position: nat, allowRange: bool)
    ensures Trim(Numeral(n)) == Numeral(n)
    ensures ParseCell(Numeral(n), position, allowRange) == Ok(Index(Bound(n, false)))
  {
    var s := Numeral(n);
    NumeralRoundTrip(n);
    assert IsDigit(s[0]) && IsDigit(s[|s| - 1]);
    NoSplit(s, 0);
    if |s| >= 4 {
      assert IsDigit(s[..4][0]);
    }
  }

  lemma NameIsPlain(key: Text)
    requires IsName(key)
    ensures Clean(key) && forall i :: 0 <= i < |key| ==> IsPlain(key[i])
  {
  }

  /** `t` stands at `pos`, and the next step or nothing follows it. */
  predicate Stands(text: Text, pos: nat, t: Text) {
    && pos + |t| <= |text|
    && (forall i :: 0 <= i < |t| ==> text[pos + i] == t[i])
    && (pos + |t| < |text| ==> text[pos + |t|] == DOT || text[pos + |t|] == OPEN)
  }

  lemma IndexParses(text: Text, pos: nat, n: nat, allowRange: bool)
    requires Stands(text, pos, [OPEN] + Numeral(n) + [CLOSE])
    ensures ParseStep(text, pos, allowRange) == Ok((Index(Bound(n, false)), pos + |Numeral(n)| + 2))
  {
    hide ParseCell, Trim, ParseKey;
    var digits := Numeral(n);
    var end := pos + |digits| + 1;
    NumeralRoundTrip(n);
    var t := [OPEN] + digits + [CLOSE];
    assert t[0] == OPEN && t[|t| - 1] == CLOSE && forall i :: 1 <= i < |t| - 1 ==> t[i] == digits[i - 1];
    forall k | pos < k < end
      ensures text[k] == digits[k - pos - 1] && text[k] != CLOSE
    {
      assert text[pos + (k - pos)] == t[k - pos];
      assert IsDigit(digits[k - pos - 1]);
    }
    assert text[pos] == text[pos + 0] == OPEN && text[end] == text[pos + (|t| - 1)] == CLOSE;
    IndexOfIs(text, CLOSE, pos, end);
    assert text[pos + 1..end] == digits;
    CellIsIndex(n, pos + 1, allowRange);
  }

  lemma NameParses(text: Text, pos: nat, key: Text, allowRange: bool)
    requires IsName(key) && Stands(text, pos, [DOT] + key)
    ensures ParseStep(text, pos, allowRange) == Ok((Key(key), pos + 1 + |key|))
  {
    hide ParseCell, Trim;
    var t, end := [DOT] + key, pos + 1 + |key|;
    NameIsPlain(key);
    forall k | pos < k < end
      ensures text[k] == key[k - pos - 1]
    {
      assert text[pos + (k - pos)] == t[k - pos];
    }
    assert t[0] == DOT && text[pos] == text[pos + 0] == DOT && text[pos + 1] == key[0];
    PlainEndIs(text, pos + 1, end);
    assert text[pos + 1..end] == key;
  }

  /** What stands between the quotes. */
  lemma QuotedAt(text: Text, pos: nat, inner: Text)
    requires Stands(text, pos, [DOT, QUOTE] + inner + [QUOTE])
    ensures
      var end := pos + 2 + |inner|;
      && end < |text| && text[pos] == DOT && text[pos + 1] == QUOTE && text[end] == QUOTE
      && text[pos + 2..end] == inner && forall k :: pos + 2 <= k < end ==> text[k] == inner[k - pos - 2]
  {
    var t, end := [DOT, QUOTE] + inner + [QUOTE], pos + 2 + |inner|;
    assert t[0] == DOT && t[1] == QUOTE && t[|t| - 1] == QUOTE;
    assert text[pos] == text[pos + 0] && text[end] == text[pos + (|t| - 1)];
    forall k | pos + 2 <= k < end
      ensures text[k] == inner[k - pos - 2]
    {
      assert text[pos + (k - pos)] == t[k - pos] == inner[k - pos - 2];
    }
  }

  /** Whatever stands between quotes without a quote of its own is read as it is. */
  lemma QuotedParses(text: Text, pos: nat, inner: Text, allowRange: bool)
    requires inner != [] && (forall i :: 0 <= i < |inner| ==> inner[i] != QUOTE)
    requires Stands(text, pos, [DOT, QUOTE] + inner + [QUOTE])
    ensures ParseStep(text, pos, allowRange) == Ok((Key(inner), pos + 3 + |inner|))
  {
    hide ParseCell, Trim, Stands;
    QuotedAt(text, pos, inner);
    IndexOfIs(text, QUOTE, pos + 2, pos + 2 + |inner|);
  }

  /** A step's own text parses as that step. */
  lemma StepParses(text: Text, pos: nat, segment: Segment, allowRange: bool)
    requires Canonical([segment]) && CleanSteps([segment]) && Stands(text, pos, StepText(segment))
    ensures StepText(segment) != []
    ensures ParseStep(text, pos, allowRange) == Ok((segment, pos + |StepText(segment)|))
  {
    hide ParseStep, Stands, IsName;
    assert [segment][0] == segment;
    if segment.Index? {
      IndexParses(text, pos, segment.at.index, allowRange);
    } else if IsName(segment.key) {
      NameParses(text, pos, segment.key, allowRange);
    } else {
      EscapedClean(segment.key);
      assert forall i :: 0 <= i < |segment.key| ==> CleanUnit(segment.key[i]);
      QuotedParses(text, pos, segment.key, allowRange);
    }
  }

  lemma StepStarts(path: Path)
    requires Canonical(path) && path != []
    ensures StepsText(path) != [] && (StepsText(path)[0] == DOT || StepsText(path)[0] == OPEN)
  {
  }

  lemma StandsFirst(text: Text, pos: nat, path: Path)
    requires Canonical(path) && path != [] && pos <= |text| && text[pos..] == StepsText(path)
    ensures Canonical([path[0]]) && Stands(text, pos, StepText(path[0]))
    ensures text[pos + |StepText(path[0])|..] == StepsText(path[1..])
  {
    hide StepText;
    assert [path[0]][0] == path[0];
    var t, rest := StepText(path[0]), path[1..];
    var tail := StepsText(rest);
    assert text[pos..] == t + tail;
    assert forall i :: 0 <= i < |t| ==> text[pos + i] == text[pos..][i] == t[i];
    assert text[pos + |t|..] == text[pos..][|t|..] == tail;
    if rest != [] {
      StepStarts(rest);
      assert text[pos + |t|] == tail[0];
    }
  }

  lemma {:induction false} StepsParse(text: Text, pos: nat, path: Path, allowRange: bool)
    requires Canonical(path) && CleanSteps(path) && pos <= |text| && text[pos..] == StepsText(path)
    ensures ParseFrom(text, pos, allowRange) == Ok(path)
    decreases |path|
  {
    hide ParseStep, StepText;
    if path != [] {
      StandsFirst(text, pos, path);
      StepParses(text, pos, path[0], allowRange);
      StepsParse(text, pos + |StepText(path[0])|, path[1..], allowRange);
      assert [path[0]] + path[1..] == path;
    }
  }

  /** The text of a path with clean keys parses as that path. */
  lemma PathTextParses(path: Path, allowRange: bool)
    requires Canonical(path) && CleanSteps(path)
    ensures Parse(PathText(path), allowRange) == Ok(path)
  {
    assert PathText(path)[1..] == StepsText(path);
    StepsParse(PathText(path), 1, path, allowRange);
  }

  /** Paths with clean keys have different texts. */
  lemma PathTextInjective(p: Path, q: Path)
    requires Canonical(p) && CleanSteps(p) && Canonical(q) && CleanSteps(q) && PathText(p) == PathText(q)
    ensures p == q
  {
    PathTextParses(p, false);
    PathTextParses(q, false);
  }

  lemma {:induction false} EscapedNoQuote(s: Text)
    requires forall i :: 0 <= i < |s| ==> s[i] != QUOTE
    ensures forall i :: 0 <= i < |Escaped(s)| ==> Escaped(s)[i] != QUOTE
  {
    hide EscapeUnit;
    if s != [] {
      var n := FirstLength(s);
      assert forall i :: 0 <= i < |s[n..]| ==> s[n..][i] == s[i + n];
      EscapedNoQuote(s[n..]);
      var first := if n == 2 then s[..2] else EscapeUnit(s[0]);
      NoQuoteMade(s[0]);
      assert forall i :: 0 <= i < |first| ==> first[i] != QUOTE;
    }
  }

  lemma NoQuoteMade(c: Unit)
    requires c != QUOTE
    ensures forall i :: 0 <= i < |EscapeUnit(c)| ==> EscapeUnit(c)[i] != QUOTE
  {
  }

  lemma OneKeyText(key: Text)
    ensures Canonical([Key(key)])
    ensures
      var text := PathText([Key(key)]);
      |text| == 1 + |PathKey(key)| && text[0] == DOLLAR && Stands(text, 1, PathKey(key))
  {
    hide PathKey;
    var path := [Key(key)];
    assert path[0] == Key(key) && path[1..] == [];
    assert PathText(path)[1..] == StepsText(path) == StepText(path[0]);
    StandsFirst(PathText(path), 1, path);
  }

  lemma KeyStepReads(text: Text, pos: nat, key: Text, allowRange: bool)
    requires key != [] && forall i :: 0 <= i < |key| ==> key[i] != QUOTE
    requires Stands(text, pos, PathKey(key))
    ensures ParseStep(text, pos, allowRange) == Ok((Key(Escaped(key)), pos + |PathKey(key)|))
  {
    hide ParseStep, Stands, IsName, Escaped, Clean;
    EscapedClean(key);
    if IsName(key) {
      NameIsPlain(key);
      CleanIsAll(key);
      NameParses(text, pos, key, allowRange);
    } else {
      EscapedNoQuote(key);
      QuotedParses(text, pos, Escaped(key), allowRange);
    }
  }

  /** What a key without a quote is read back as: itself with all its escapes. */
  lemma KeyReadsAsEscaped(key: Text, allowRange: bool)
    requires key != [] && forall i :: 0 <= i < |key| ==> key[i] != QUOTE
    ensures Canonical([Key(key)]) && Parse(PathText([Key(key)]), allowRange) == Ok([Key(Escaped(key))])
  {
    hide ParseStep, Stands, PathKey, Escaped, PathText;
    OneKeyText(key);
    var text := PathText([Key(key)]);
    KeyStepReads(text, 1, key, allowRange);
    assert ParseFrom(text, |text|, allowRange) == Ok([]);
    assert [Key(Escaped(key))] + [] == [Key(Escaped(key))];
  }

  lemma CleanIsAll(key: Text)
    ensures Clean(key) <==> key != [] && AllClean(key)
  {
  }

  /** A quoted key that needed escaping, or is empty, is not read back as itself. */
  lemma UncleanKeyMisread(text: Text, pos: nat, key: Text, allowRange: bool)
    requires !Clean(key) && Stands(text, pos, [DOT, QUOTE] + Escaped(key) + [QUOTE])
    ensures
      var step := ParseStep(text, pos, allowRange);
      !(step.Ok? && step.value.0 == Key(key))
  {
    hide ParseCell, Trim, Clean, Stands, Escaped;
    var e := Escaped(key);
    QuotedAt(text, pos, e);
    var step, first := ParseStep(text, pos, allowRange), IndexOf(text, QUOTE, pos + 2);
    if step.Ok? && step.value.0 == Key(key) {
      assert first.Some? && key == text[pos + 2..first.value] && key != [];
      assert forall i :: 0 <= i < |key| ==> key[i] in text[pos + 2..first.value];
      EscapedNoQuote(key);
      IndexOfIs(text, QUOTE, pos + 2, pos + 2 + |e|);
      CleanIfEscapedSame(key);
    }
  }

  lemma CleanIfEscapedSame(key: Text)
    requires Escaped(key) == key && key != []
    ensures Clean(key)
  {
    EscapedClean(key);
  }

  lemma {:induction false} OnlyCleanParses(text: Text, pos: nat, path: Path, allowRange: bool)
    requires Canonical(path) && pos <= |text| && text[pos..] == StepsText(path)
    requires ParseFrom(text, pos, allowRange) == Ok(path)
    ensures CleanSteps(path)
    decreases |path|
  {
    hide ParseStep, StepText, Clean;
    if path != [] {
      var segment, rest := path[0], path[1..];
      StandsFirst(text, pos, path);
      var step := ParseStep(text, pos, allowRange);
      assert step.Ok?;
      var others := ParseFrom(text, step.value.1, allowRange);
      assert others.Ok? && ([step.value.0] + others.value)[0] == segment && others.value == rest by {
        assert ([step.value.0] + others.value)[1..] == others.value;
      }
      assert CleanSteps([segment]) by {
        FirstIsClean(text, pos, segment, allowRange);
      }
      StepParses(text, pos, segment, allowRange);
      OnlyCleanParses(text, pos + |StepText(segment)|, rest, allowRange);
      forall i | 0 <= i < |path| && path[i].Key?
        ensures Clean(path[i].key)
      {
        assert i == 0 ==> [segment][0] == path[i];
        assert i > 0 ==> path[i] == rest[i - 1];
      }
    }
  }

  lemma FirstIsClean(text: Text, pos: nat, segment: Segment, allowRange: bool)
    requires Canonical([segment]) && Stands(text, pos, StepText(segment))
    requires
      var step := ParseStep(text, pos, allowRange);
      step.Ok? && step.value.0 == segment
    ensures CleanSteps([segment])
  {
    hide ParseStep, Clean;
    assert [segment][0] == segment;
    if segment.Key? && !Clean(segment.key) {
      if IsName(segment.key) {
        NameIsPlain(segment.key);
      } else {
        UncleanKeyMisread(text, pos, segment.key, allowRange);
      }
    }
  }

  /** The text JSON_SEARCH writes for a path is read back as that path if and only if every key in it is
      non-empty, free of quotes, backslashes and control characters, and has its surrogates paired. */
  lemma PathReadBackIffClean(path: Path, allowRange: bool)
    requires Canonical(path)
    ensures Parse(PathText(path), allowRange) == Ok(path) <==> CleanSteps(path)
  {
    if CleanSteps(path) {
      PathTextParses(path, allowRange);
    } else if Parse(PathText(path), allowRange) == Ok(path) {
      assert PathText(path)[1..] == StepsText(path);
      OnlyCleanParses(PathText(path), 1, path, allowRange);
    }
  }
}
