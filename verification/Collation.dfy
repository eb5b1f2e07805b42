/** Which collation an expression compares by: the strongest of its parts, if they agree. */
module Collation {
  import opened Common

  /** Coercibility: a smaller number binds stronger; nothing is weaker than IGNORABLE. */
  const EXPLICIT: nat := 0
  const COLUMN_TYPE: nat := 2
  const IGNORABLE: nat := 6

  datatype Result = Result(collation: Option<string>, level: nat)

  const NO_COLLATION := Result(None, IGNORABLE)

  /** A literal, column or cast with what it says for itself; or several operands. */
  datatype Expr = Leaf(result: Result) | Operands(args: seq<Expr>)

  /** `r` is stronger than everything else in the list. */
  ghost predicate Strongest(results: seq<Result>, r: Result) {
    r in results && forall x :: x in results ==> r.level < x.level || x == r
  }

  /** The strongest entry, or failure. */
  ghost function Aggregate(results: seq<Result>): Option<Result> {
    if results == [] then Some(NO_COLLATION)
    else if exists r :: Strongest(results, r) then
      var r :| Strongest(results, r);
      Some(r)
    else None
  }

  lemma {:induction false} LeastLevel(results: seq<Result>) returns (least: Result)
    requires results != []
    ensures least in results && forall x :: x in results ==> least.level <= x.level
  {
    least := results[0];
    if |results| > 1 {
      var rest := LeastLevel(results[1..]);
      assert results == [results[0]] + results[1..];
      if rest.level < least.level {
        least := rest;
      }
    }
  }

  /** Aggregation fails iff two entries of the least coercibility differ. */
  lemma FailsIffTwoDiffer(results: seq<Result>)
    ensures Aggregate(results).None? <==>
            exists x, y :: x in results && y in results && x.level == y.level && x.collation != y.collation &&
                           forall z :: z in results ==> x.level <= z.level
  {
    if results != [] {
      var least := LeastLevel(results);
      if Aggregate(results).None? {
        assert !Strongest(results, least);
      }
    }
  }

  /** The result does not depend on the order of the list, nor on repetitions in it. */
  lemma OrderDoesNotMatter(a: seq<Result>, b: seq<Result>)
    requires forall x :: x in a <==> x in b
    ensures Aggregate(a) == Aggregate(b)
  {
    assert a != [] ==> a[0] in b;
    assert b != [] ==> b[0] in a;
    assert forall r :: Strongest(a, r) <==> Strongest(b, r);
  }

  // ----- The evaluation -----

  /** What `_getExprCollation` returns, `None` when it throws. */
  ghost function Eval(e: Expr): Option<Result> {
    match e
    case Leaf(r) => Some(r)
    case Operands(args) =>
      if exists i :: 0 <= i < |args| && Eval(args[i]).None? then None
      else Aggregate(seq(|args|, i requires 0 <= i < |args| => Eval(args[i]).value))
  }

  predicate Sorted(results: seq<Result>) {
    forall i, k :: 0 <= i < k < |results| ==> results[i].level <= results[k].level
  }

  /** `sort(_sortCollate)`. */
  method SortCollate(results: seq<Result>) returns (sorted: seq<Result>)
    ensures Sorted(sorted) && forall x :: x in sorted <==> x in results
  {
    hide Sorted;
    sorted := [];
    assert Sorted(sorted) by {
      InsertedAt(sorted, NO_COLLATION, 0);
    }
    for n := 0 to |results|
      invariant Sorted(sorted) && forall x :: x in sorted <==> x in results[..n]
    {
      var i := |sorted|;
      while i > 0 && sorted[i - 1].level > results[n].level
        invariant 0 <= i <= |sorted| && forall k :: i <= k < |sorted| ==> sorted[k].level > results[n].level
      {
        i := i - 1;
      }
      assert results[..n + 1] == results[..n] + [results[n]];
      InsertedAt(sorted, results[n], i);
      sorted := sorted[..i] + [results[n]] + sorted[i..];
    }
    assert results[..|results|] == results;
  }

  lemma InsertedAt(sorted: seq<Result>, r: Result, i: nat)
    requires i <= |sorted| && forall k :: i <= k < |sorted| ==> sorted[k].level > r.level
    ensures sorted == [] ==> Sorted(sorted)
    ensures
      var more := sorted[..i] + [r] + sorted[i..];
      && (Sorted(sorted) && (i == 0 || sorted[i - 1].level <= r.level) ==> Sorted(more))
      && forall x :: x in more <==> x in sorted || x == r
  {
    var more := sorted[..i] + [r] + sorted[i..];
    InsertedMembers(sorted, r, i);
    if Sorted(sorted) && (i == 0 || sorted[i - 1].level <= r.level) {
      forall a, b | 0 <= a < b < |more|
        ensures more[a].level <= more[b].level
      {
        assert more[a] == if a < i then sorted[a] else if a == i then r else sorted[a - 1];
        assert more[b] == if b < i then sorted[b] else if b == i then r else sorted[b - 1];
      }
    }
  }

  lemma InsertedMembers(sorted: seq<Result>, r: Result, i: nat)
    requires i <= |sorted|
    ensures forall x :: x in sorted[..i] + [r] + sorted[i..] <==> x in sorted || x == r
  {
    assert sorted == sorted[..i] + sorted[i..];
  }

  /** `_getExprCollation`: operands first; then, from the strongest down, until the level changes. */
  method GetExprCollation(e: Expr) returns (result: Option<Result>)
    ensures result == Eval(e)
  {
    if e.Leaf? {
      return Some(e.result);
    }
    if |e.args| == 0 {
      return Some(NO_COLLATION);
    }
    var results := [];
    for i := 0 to |e.args|
      invariant |results| == i && forall k :: 0 <= k < i ==> Eval(e.args[k]) == Some(results[k])
    {
      var one := GetExprCollation(e.args[i]);
      if one.None? {
        return None;
      }
      results := results + [one.value];
    }
    assert results == seq(|e.args|, i requires 0 <= i < |e.args| => Eval(e.args[i]).value);
    var sorted := SortCollate(results);
    OrderDoesNotMatter(sorted, results);
    assert results[0] in sorted;
    var current := sorted[0];
    var i := 1;
    while i < |sorted|
      invariant 1 <= i <= |sorted| && forall k :: 0 <= k < i ==> sorted[k] == current
    {
      if current.level != sorted[i].level {
        break;
      }
      if current.collation != sorted[i].collation {
        FailsIffTwoDiffer(sorted);
        assert sorted[0] in sorted && sorted[i] in sorted;
        return None;
      }
      i := i + 1;
    }
    assert Strongest(sorted, current);
    result := Some(current);
  }

  // ----- Nested and flattened -----

  function Leaves(e: Expr): seq<Result> {
    match e
    case Leaf(r) => [r]
    case Operands(args) => AllLeaves(args)
  }

  function AllLeaves(args: seq<Expr>): seq<Result> {
    if args == [] then [] else Leaves(args[0]) + AllLeaves(args[1..])
  }

  lemma {:induction false} LeavesOf(args: seq<Expr>, x: Result)
    ensures x in AllLeaves(args) <==> exists i :: 0 <= i < |args| && x in Leaves(args[i])
  {
    if args != [] {
      LeavesOf(args[1..], x);
      if i :| 0 <= i < |args[1..]| && x in Leaves(args[1..][i]) {
        assert args[i + 1] == args[1..][i];
      }
      forall i | 1 <= i < |args| && x in Leaves(args[i])
        ensures x in AllLeaves(args[1..])
      {
        assert args[1..][i - 1] == args[i];
      }
    }
  }

  /** Only entries without a collation are IGNORABLE. */
  predicate Proper(r: Result) {
    r.level <= IGNORABLE && (r.level == IGNORABLE ==> r.collation.None?)
  }

  predicate ProperExpr(e: Expr) {
    match e
    case Leaf(r) => Proper(r)
    case Operands(args) => forall i :: 0 <= i < |args| ==> ProperExpr(args[i])
  }

  lemma {:induction false} LeavesProper(e: Expr, x: Result)
    requires ProperExpr(e) && x in Leaves(e)
    ensures Proper(x)
  {
    if e.Operands? {
      LeavesOf(e.args, x);
      var i :| 0 <= i < |e.args| && x in Leaves(e.args[i]);
      LeavesProper(e.args[i], x);
    }
  }

  /** Each operand stands for all of its leaves. */
  ghost predicate StandFor(args: seq<Expr>, results: seq<Result>) {
    && |results| == |args|
    && forall i :: 0 <= i < |args| ==>
         && Aggregate(Leaves(args[i])) == Some(results[i])
         && Proper(results[i])
         && forall x :: x in Leaves(args[i]) ==> Proper(x)
  }

  /** An operand's result is the strongest of its leaves, or it has none. */
  lemma StandsFor(args: seq<Expr>, results: seq<Result>, i: nat)
    requires StandFor(args, results) && i < |args|
    ensures Leaves(args[i]) == [] ==> results[i] == NO_COLLATION
    ensures Leaves(args[i]) != [] ==> Strongest(Leaves(args[i]), results[i])
  {
  }

  lemma StrongestUp(args: seq<Expr>, results: seq<Result>, r: Result)
    requires StandFor(args, results) && Strongest(AllLeaves(args), r)
    ensures Strongest(results, r)
  {
    hide Aggregate, Proper;
    LeavesOf(args, r);
    var i :| 0 <= i < |args| && r in Leaves(args[i]);
    StandsFor(args, results, i);
    LeavesOf(args, results[i]);
    assert results[i] == r;
    forall k | 0 <= k < |results|
      ensures r.level < results[k].level || results[k] == r
    {
      StandsFor(args, results, k);
      LeavesOf(args, results[k]);
      assert Proper(r) && (Leaves(args[k]) != [] ==> results[k] in Leaves(args[k]));
      WeakestIs(r);
    }
  }

  lemma WeakestIs(r: Result)
    requires Proper(r)
    ensures r.level < IGNORABLE || r == NO_COLLATION
  {
  }

  lemma StrongestDown(args: seq<Expr>, results: seq<Result>, r: Result)
    requires StandFor(args, results) && Strongest(results, r) && AllLeaves(args) != []
    ensures Strongest(AllLeaves(args), r)
  {
    hide Aggregate, Proper;
    forall x | x in AllLeaves(args)
      ensures r.level < x.level || x == r
      ensures r == NO_COLLATION ==> r in AllLeaves(args)
    {
      LeavesOf(args, x);
      var k :| 0 <= k < |args| && x in Leaves(args[k]);
      StandsFor(args, results, k);
      assert results[k] in results;
      LeavesOf(args, results[k]);
      WeakestIs(results[k]);
    }
    var i :| 0 <= i < |results| && results[i] == r;
    StandsFor(args, results, i);
    LeavesOf(args, r);
    if Leaves(args[i]) == [] {
      assert AllLeaves(args)[0] in AllLeaves(args);
    }
  }

  /** Aggregating results is aggregating the leaves they stand for. */
  lemma AggregateLeaves(args: seq<Expr>, results: seq<Result>)
    requires StandFor(args, results)
    ensures Aggregate(AllLeaves(args)) == Aggregate(results)
  {
    hide Proper;
    if AllLeaves(args) == [] {
      forall i | 0 <= i < |results|
        ensures results[i] == NO_COLLATION
      {
        StandsFor(args, results, i);
        if Leaves(args[i]) != [] {
          LeavesOf(args, results[i]);
        }
      }
      if results != [] {
        assert Strongest(results, results[0]);
      }
    } else {
      assert args != [];
      forall r
        ensures Strongest(AllLeaves(args), r) <==> Strongest(results, r)
      {
        if Strongest(AllLeaves(args), r) {
          StrongestUp(args, results, r);
        }
        if Strongest(results, r) {
          StrongestDown(args, results, r);
        }
      }
    }
  }

  /** Where no inner level fails, nesting does not matter. */
  lemma {:induction false} NestedIsFlat(e: Expr)
    requires ProperExpr(e) && Eval(e).Some?
    ensures Aggregate(Leaves(e)) == Eval(e) && Proper(Eval(e).value)
  {
    match e
    case Leaf(r) =>
      assert Strongest([r], r);
    case Operands(args) =>
      var results := seq(|args|, i requires 0 <= i < |args| => Eval(args[i]).value);
      forall i | 0 <= i < |args|
        ensures Aggregate(Leaves(args[i])) == Some(results[i]) && Proper(results[i])
        ensures forall x :: x in Leaves(args[i]) ==> Proper(x)
      {
        NestedIsFlat(args[i]);
        forall x | x in Leaves(args[i])
          ensures Proper(x)
        {
          LeavesProper(args[i], x);
        }
      }
      AggregateLeaves(args, results);
  }

  /** Some part of the expression has leaves that do not agree. */
  ghost predicate SomePartClashes(e: Expr) {
    || Aggregate(Leaves(e)).None?
    || (e.Operands? && exists i :: 0 <= i < |e.args| && SomePartClashes(e.args[i]))
  }

  /** Nested evaluation fails if and only if the leaves of some part clash; the leaves of the whole need
      not, when a stronger entry further out would decide. */
  lemma {:induction false} FailsIffPartClashes(e: Expr)
    requires ProperExpr(e)
    ensures Eval(e).None? <==> SomePartClashes(e)
  {
    if Eval(e).Some? {
      NestedIsFlat(e);
    }
    if e.Operands? {
      var args := e.args;
      forall i | 0 <= i < |args|
        ensures Eval(args[i]).None? <==> SomePartClashes(args[i])
      {
        FailsIffPartClashes(args[i]);
      }
      if Eval(e).None? && forall i :: 0 <= i < |args| ==> Eval(args[i]).Some? {
        var results := seq(|args|, i requires 0 <= i < |args| => Eval(args[i]).value);
        forall i | 0 <= i < |args|
          ensures Aggregate(Leaves(args[i])) == Some(results[i]) && Proper(results[i])
          ensures forall x :: x in Leaves(args[i]) ==> Proper(x)
        {
          NestedIsFlat(args[i]);
          forall x | x in Leaves(args[i])
            ensures Proper(x)
          {
            LeavesProper(args[i], x);
          }
        }
        AggregateLeaves(args, results);
      }
    }
  }

  /** Two different columns clash inside an expression that an explicit collation would decide. */
  lemma NestedMayFailWhereFlatDoesNot(a: string, b: string, c: string)
    requires a != b
    ensures
      var columns := Operands([Leaf(Result(Some(a), COLUMN_TYPE)), Leaf(Result(Some(b), COLUMN_TYPE))]);
      var e := Operands([columns, Leaf(Result(Some(c), EXPLICIT))]);
      Eval(e).None? && Aggregate(Leaves(e)) == Some(Result(Some(c), EXPLICIT))
  {
    var x, y, z := Result(Some(a), COLUMN_TYPE), Result(Some(b), COLUMN_TYPE), Result(Some(c), EXPLICIT);
    var columns := Operands([Leaf(x), Leaf(y)]);
    var e := Operands([columns, Leaf(z)]);
    assert AllLeaves([Leaf(x), Leaf(y)]) == [x] + AllLeaves([Leaf(y)]) && AllLeaves([Leaf(y)]) == [y] + AllLeaves([]);
    assert AllLeaves([columns, Leaf(z)]) == [x, y] + AllLeaves([Leaf(z)]) &&
           AllLeaves([Leaf(z)]) == [z] + AllLeaves([]);
    assert Leaves(e) == [x, y, z];
    assert Strongest([x, y, z], z);
    FailsIffTwoDiffer([x, y]);
    assert x in [x, y] && y in [x, y];
    assert Aggregate(Leaves(columns)).None?;
    assert SomePartClashes(columns);
    assert e.args[0] == columns;
    FailsIffPartClashes(e);
  }
}
