/** Rows, FROM-list joins, and the nested-loop answer a streaming join has to give. */
module JoinSpec {
  import opened Common

  /** A column value. NULL compares equal to itself here: rows are compared as data. */
  datatype Cell = Null | Number(n: int) | Text(s: string)

  type Row = map<string, Cell>

  /** What a joined row holds for each table of the FROM list, by position;
      `None` is the null row of a LEFT JOIN. */
  type Source = map<nat, Option<Row>>

  /** A table after the first one: its position, and how it is joined on. */
  datatype Join = Join(from: nat, isLeft: bool, on: Option<Source -> bool>)

  /** The part of a source that concerns the tables before position `n`. */
  function Upto(s: Source, n: nat): Source {
    map k | k in s && k < n :: s[k]
  }

  /** An ON clause only refers to the tables up to its own. */
  ghost predicate Scoped(j: Join) {
    j.on.Some? ==>
      forall s: Source {:trigger Upto(s, j.from + 1)} :: j.on.value(s) == j.on.value(Upto(s, j.from + 1))
  }

  function Paired(j: Join, p: Source, c: Row): Source {
    p[j.from := Some(c)]
  }

  predicate Holds(j: Join, s: Source) {
    j.on.None? || j.on.value(s)
  }

  /** The inner loop: `p` against every child, in order. */
  function Matches(j: Join, p: Source, children: seq<Row>): seq<Source> {
    if children == [] then [] else
      var c := children[|children| - 1];
      Matches(j, p, children[..|children| - 1]) + (if Holds(j, Paired(j, p, c)) then [Paired(j, p, c)] else [])
  }

  /** Everything one parent row contributes; a LEFT JOIN keeps an unmatched parent. */
  function RowOutput(j: Join, p: Source, children: seq<Row>): seq<Source> {
    var found := Matches(j, p, children);
    if found == [] && j.isLeft then [p[j.from := None]] else found
  }

  /** The outer loop. */
  function NestedLoop(j: Join, parents: seq<Source>, children: seq<Row>): seq<Source> {
    if parents == [] then [] else
      NestedLoop(j, parents[..|parents| - 1], children) + RowOutput(j, parents[|parents| - 1], children)
  }

  function FirstRow(row: Row): Source {
    map[0 := Some(row)]
  }

  function FirstRows(rows: seq<Row>): seq<Source> {
    seq(|rows|, i requires 0 <= i < |rows| => FirstRow(rows[i]))
  }

  /** The FROM clause as a fold of joins, left to right. */
  function JoinChain(first: seq<Row>, joins: seq<Join>, tables: seq<seq<Row>>): seq<Source>
    requires |joins| == |tables|
  {
    var n := |joins|;
    if n == 0 then FirstRows(first) else
      NestedLoop(joins[n - 1], JoinChain(first, joins[..n - 1], tables[..n - 1]), tables[n - 1])
  }

  function Filter<T>(keep: T -> bool, s: seq<T>): (r: seq<T>) {
    if s == [] then [] else
      Filter(keep, s[..|s| - 1]) + (if keep(s[|s| - 1]) then [s[|s| - 1]] else [])
  }

  // ----- Bags of rows: the answer of a join does not depend on row order -----

  lemma UptoIdempotent(s: Source, n: nat)
    ensures Upto(Upto(s, n), n) == Upto(s, n)
  {
  }

  lemma UptoPaired(j: Join, s: Source, v: Option<Row>)
    ensures Upto(s[j.from := v], j.from + 1) == Upto(s, j.from)[j.from := v]
  {
  }

  /** The entries for all other tables. */
  function Others(s: Source, from: nat): Source {
    s - {from}
  }

  lemma WriteEntry(s: Source, from: nat, v: Option<Row>)
    ensures Others(s[from := v], from) == Others(s, from)
    ensures Upto(s[from := v], from) == Upto(s, from)
  {
  }

  lemma HoldsScoped(j: Join, s: Source, c: Row)
    requires Scoped(j)
    ensures Holds(j, Paired(j, s, c)) == Holds(j, Paired(j, Upto(s, j.from), c))
  {
    UptoPaired(j, s, Some(c));
    if j.on.Some? {
      UptoPaired(j, Upto(s, j.from), Some(c));
      UptoIdempotent(s, j.from);
      assert Upto(Paired(j, s, c), j.from + 1) == Upto(Paired(j, Upto(s, j.from), c), j.from + 1);
    }
  }

  lemma SplitBag<T>(a: seq<T>, b: seq<T>) returns (i: nat)
    requires a != [] && multiset(a) == multiset(b)
    ensures i < |b| && b[i] == a[|a| - 1]
    ensures b == b[..i] + [b[i]] + b[i + 1..]
    ensures multiset(a[..|a| - 1]) == multiset(b[..i] + b[i + 1..])
  {
    var x := a[|a| - 1];
    assert a == a[..|a| - 1] + [x];
    assert x in multiset(b);
    i :| 0 <= i < |b| && b[i] == x;
    assert b == b[..i] + [x] + b[i + 1..];
    var rest := b[..i] + b[i + 1..];
    assert multiset(b) == multiset(b[..i]) + multiset{x} + multiset(b[i + 1..]);
    assert multiset(rest) == multiset(b[..i]) + multiset(b[i + 1..]);
    assert multiset(rest) == multiset(b) - multiset{x};
    assert multiset(a) == multiset(a[..|a| - 1]) + multiset{x};
    assert multiset(a[..|a| - 1]) == multiset(a) - multiset{x};
  }

  lemma {:induction false} NestedLoopConcat(j: Join, a: seq<Source>, b: seq<Source>, children: seq<Row>)
    ensures NestedLoop(j, a + b, children) == NestedLoop(j, a, children) + NestedLoop(j, b, children)
  {
    if b == [] {
      assert a + b == a;
    } else {
      var b' := b[..|b| - 1];
      assert (a + b)[..|a + b| - 1] == a + b';
      NestedLoopConcat(j, a, b', children);
    }
  }

  /** The nested-loop answer is the same bag for every order of the parents. */
  lemma {:induction false} NestedLoopBag(j: Join, a: seq<Source>, b: seq<Source>, children: seq<Row>)
    requires multiset(a) == multiset(b)
    ensures multiset(NestedLoop(j, a, children)) == multiset(NestedLoop(j, b, children))
    decreases |a|
  {
    if a == [] {
      assert |multiset(b)| == 0;
    } else {
      var i := SplitBag(a, b);
      var x, a', front, back := a[|a| - 1], a[..|a| - 1], b[..i], b[i + 1..];
      NestedLoopBag(j, a', front + back, children);
      NestedLoopConcat(j, a', [x], children);
      NestedLoopConcat(j, front, back, children);
      NestedLoopConcat(j, front + [x], back, children);
      NestedLoopConcat(j, front, [x], children);
    }
  }

  lemma {:induction false} FilterConcat<T>(keep: T -> bool, a: seq<T>, b: seq<T>)
    ensures Filter(keep, a + b) == Filter(keep, a) + Filter(keep, b)
  {
    if b == [] {
      assert a + b == a;
    } else {
      assert (a + b)[..|a + b| - 1] == a + b[..|b| - 1];
      FilterConcat(keep, a, b[..|b| - 1]);
    }
  }

  lemma {:induction false} FilterBag<T>(keep: T -> bool, a: seq<T>, b: seq<T>)
    requires multiset(a) == multiset(b)
    ensures multiset(Filter(keep, a)) == multiset(Filter(keep, b))
    decreases |a|
  {
    if a == [] {
      assert |multiset(b)| == 0;
    } else {
      var i := SplitBag(a, b);
      var x, a', front, back := a[|a| - 1], a[..|a| - 1], b[..i], b[i + 1..];
      FilterBag(keep, a', front + back);
      FilterConcat(keep, front, back);
      FilterConcat(keep, front + [x], back);
      FilterConcat(keep, front, [x]);
    }
  }
}
