/** One streaming join: `_join`'s two buffers, and the parent's own map used as a "sent" flag. */
module JoinStage {
  import opened Common
  import opened JoinSpec

  /** A row travelling through the join; its source map is updated in place. */
  class SourceRow {
    var source: Source

    constructor (s: Source)
      ensures source == s
    {
      source := s;
    }
  }

  // ----- Bookkeeping: which children each parent has already met -----

  /** The bag of matches when parent `i` has met the first `seen[i]` children. */
  ghost function MatchedSoFar(j: Join, parents: seq<Source>, children: seq<Row>, seen: seq<nat>): multiset<Source>
    requires |seen| == |parents|
    requires forall i :: 0 <= i < |seen| ==> seen[i] <= |children|
  {
    if parents == [] then multiset{} else
      var n := |parents| - 1;
      MatchedSoFar(j, parents[..n], children, seen[..n]) + multiset(Matches(j, parents[n], children[..seen[n]]))
  }

  /** The bag of null rows sent for `parents`: one for each without a match, unless its map came in
      with an entry for the joined table, which reads as "already sent". */
  ghost function NullRows(j: Join, parents: seq<Source>, children: seq<Row>, stale: seq<bool>): multiset<Source>
    requires |stale| == |parents|
  {
    if parents == [] then multiset{} else
      var n := |parents| - 1;
      NullRows(j, parents[..n], children, stale[..n]) +
      (if !stale[n] && Matches(j, parents[n], children) == [] then multiset{parents[n][j.from := None]} else multiset{})
  }

  ghost function All(n: nat, k: nat): seq<nat> {
    seq(n, _ => k)
  }

  /** The first `i` have met one child more than the others. */
  ghost function Ragged(n: nat, i: nat, k: nat): seq<nat> {
    seq(n, q => if q < i then k + 1 else k)
  }

  lemma MatchedLast(j: Join, parents: seq<Source>, children: seq<Row>, seen: seq<nat>)
    requires |seen| == |parents| > 0
    requires forall i :: 0 <= i < |seen| ==> seen[i] <= |children|
    ensures
      var n := |parents| - 1;
      MatchedSoFar(j, parents, children, seen) ==
      MatchedSoFar(j, parents[..n], children, seen[..n]) + multiset(Matches(j, parents[n], children[..seen[n]]))
  {
    hide Matches;
  }

  lemma MatchesNext(j: Join, p: Source, children: seq<Row>, k: nat)
    requires k < |children|
    ensures
      var w := Paired(j, p, children[k]);
      Matches(j, p, children[..k + 1]) == Matches(j, p, children[..k]) + (if Holds(j, w) then [w] else [])
  {
    assert children[..k + 1][..k] == children[..k];
  }

  lemma {:induction false} MatchedAdvance(j: Join, parents: seq<Source>, children: seq<Row>, seen: seq<nat>, i: nat)
    requires |seen| == |parents| && i < |seen|
    requires forall k :: 0 <= k < |seen| ==> seen[k] <= |children|
    requires seen[i] < |children|
    ensures
      var w := Paired(j, parents[i], children[seen[i]]);
      MatchedSoFar(j, parents, children, seen[i := seen[i] + 1]) ==
      MatchedSoFar(j, parents, children, seen) + (if Holds(j, w) then multiset{w} else multiset{})
    ensures
      var w := Paired(j, parents[i], children[seen[i]]);
      Matches(j, parents[i], children[..seen[i] + 1]) ==
      Matches(j, parents[i], children[..seen[i]]) + (if Holds(j, w) then [w] else [])
  {
    hide MatchedSoFar, Matches, Holds;
    var n, seen' := |parents| - 1, seen[i := seen[i] + 1];
    MatchedLast(j, parents, children, seen);
    MatchedLast(j, parents, children, seen');
    MatchesNext(j, parents[i], children, seen[i]);
    if i == n {
      assert seen'[..n] == seen[..n];
    } else {
      assert seen'[..n] == seen[..n][i := seen[i] + 1];
      MatchedAdvance(j, parents[..n], children, seen[..n], i);
    }
  }

  /** A child that nobody has met yet changes nothing. */
  lemma {:induction false} MatchedMoreChildren(j: Join, parents: seq<Source>, children: seq<Row>, more: seq<Row>,
                                               seen: seq<nat>)
    requires |seen| == |parents|
    requires forall i :: 0 <= i < |seen| ==> seen[i] <= |children|
    ensures MatchedSoFar(j, parents, children + more, seen) == MatchedSoFar(j, parents, children, seen)
  {
    if parents != [] {
      hide MatchedSoFar, Matches;
      var n := |parents| - 1;
      MatchedLast(j, parents, children, seen);
      MatchedLast(j, parents, children + more, seen);
      assert (children + more)[..seen[n]] == children[..seen[n]];
      MatchedMoreChildren(j, parents[..n], children, more, seen[..n]);
    }
  }

  /** Parents that have met nobody change nothing. */
  lemma {:induction false} MatchedMoreParents(j: Join, parents: seq<Source>, more: seq<Source>, children: seq<Row>,
                                              seen: seq<nat>)
    requires |seen| == |parents|
    requires forall i :: 0 <= i < |seen| ==> seen[i] <= |children|
    ensures MatchedSoFar(j, parents + more, children, seen + All(|more|, 0)) == MatchedSoFar(j, parents, children, seen)
  {
    hide MatchedSoFar, Matches;
    if more == [] {
      assert parents + more == parents && seen + All(0, 0) == seen;
    } else {
      var n := |more| - 1;
      NothingMet(j, more[n], children);
      var all, marks := parents + more, seen + All(|more|, 0);
      MatchedLast(j, all, children, marks);
      assert all[..|all| - 1] == parents + more[..n];
      assert marks[..|marks| - 1] == seen + All(n, 0);
      MatchedMoreParents(j, parents, more[..n], children, seen);
    }
  }

  lemma NothingMet(j: Join, p: Source, children: seq<Row>)
    ensures Matches(j, p, children[..0]) == []
  {
  }

  lemma NothingToJoin(j: Join, children: seq<Row>)
    ensures NestedLoop(j, [], children) == [] && MatchedSoFar(j, [], children, []) == multiset{}
    ensures NullRows(j, [], children, []) == multiset{}
  {
  }

  lemma Regroup<T>(a: multiset<T>, b: multiset<T>, c: multiset<T>, d: multiset<T>)
    ensures a + b + c + d == (a + c) + (b + d)
  {
  }

  lemma NestedLast(j: Join, parents: seq<Source>, children: seq<Row>)
    requires parents != []
    ensures
      var n := |parents| - 1;
      var found := Matches(j, parents[n], children);
      multiset(NestedLoop(j, parents, children)) ==
      multiset(NestedLoop(j, parents[..n], children)) + multiset(found) +
      (if found == [] && j.isLeft then multiset{parents[n][j.from := None]} else multiset{})
  {
    hide Matches;
  }

  /** Once every parent has met every child, the matches, together with the null rows of a LEFT JOIN
      whose parents came in unmarked, are the nested-loop answer. */
  lemma {:induction false} CompleteIsNestedLoop(j: Join, parents: seq<Source>, children: seq<Row>, stale: seq<bool>)
    requires |stale| == |parents|
    requires forall i :: 0 <= i < |stale| ==> !stale[i]
    ensures multiset(NestedLoop(j, parents, children)) ==
            MatchedSoFar(j, parents, children, All(|parents|, |children|)) +
            (if j.isLeft then NullRows(j, parents, children, stale) else multiset{})
  {
    hide Matches, MatchedSoFar, NullRows, NestedLoop, RowOutput;
    if parents == [] {
      NothingToJoin(j, children);
      assert parents == [] && stale == [] && All(0, |children|) == [];
      return;
    }
    var n, seen := |parents| - 1, All(|parents|, |children|);
    var p, found := parents[n], Matches(j, parents[n], children);
    var nothing := if found == [] && j.isLeft then multiset{p[j.from := None]} else multiset{};
    var nulls := if j.isLeft then NullRows(j, parents[..n], children, stale[..n]) else multiset{};
    assert seen[..n] == All(n, |children|) && children[..|children|] == children;
    MatchedLast(j, parents, children, seen);
    NullRowsLast(j, parents, children, stale);
    NestedLast(j, parents, children);
    CompleteIsNestedLoop(j, parents[..n], children, stale[..n]);
    Regroup(MatchedSoFar(j, parents[..n], children, All(n, |children|)), nulls, multiset(found), nothing);
  }

  ghost function NoneStale(n: nat): seq<bool> {
    seq(n, _ => false)
  }

  /** Parents that came in marked but match something lose nothing. */
  lemma {:induction false} SameNullRows(j: Join, parents: seq<Source>, children: seq<Row>, stale: seq<bool>)
    requires |stale| == |parents|
    requires forall i :: 0 <= i < |parents| && stale[i] ==> Matches(j, parents[i], children) != []
    ensures NullRows(j, parents, children, stale) == NullRows(j, parents, children, NoneStale(|parents|))
  {
    hide Matches, NullRows;
    var n, none := |parents| - 1, NoneStale(|parents|);
    if n >= 0 {
      assert none[..n] == NoneStale(n);
      SameNullRows(j, parents[..n], children, stale[..n]);
      NullRowsLast(j, parents, children, stale);
      NullRowsLast(j, parents, children, none);
    } else {
      assert none == stale;
    }
  }

  /** A parent that came in marked and matches nothing loses its null row. */
  lemma {:induction false} FewerNullRows(j: Join, parents: seq<Source>, children: seq<Row>, stale: seq<bool>,
                                         lost: set<nat>)
    requires |stale| == |parents|
    requires forall i :: i in lost ==> i < |parents| && stale[i] && Matches(j, parents[i], children) == []
    ensures |NullRows(j, parents, children, stale)| + (if lost == {} then 0 else 1) <=
            |NullRows(j, parents, children, NoneStale(|parents|))|
  {
    hide Matches, NullRows;
    var n, none := |parents| - 1, NoneStale(|parents|);
    if n >= 0 {
      assert none[..n] == NoneStale(n);
      FewerNullRows(j, parents[..n], children, stale[..n], lost - {n});
      NullRowsLast(j, parents, children, stale);
      NullRowsLast(j, parents, children, none);
      if n !in lost {
        assert lost - {n} == lost;
      }
    } else {
      assert none == stale && lost == {};
    }
  }

  lemma NullRowsLast(j: Join, parents: seq<Source>, children: seq<Row>, stale: seq<bool>)
    requires |stale| == |parents| > 0
    ensures
      var n := |parents| - 1;
      NullRows(j, parents, children, stale) ==
      NullRows(j, parents[..n], children, stale[..n]) +
      (if !stale[n] && Matches(j, parents[n], children) == [] then multiset{parents[n][j.from := None]} else multiset{})
  {
  }

  /** What a stage has done so far. `parents` are the rows delivered to it, as they concern the earlier
      tables; `seen[i]` counts the children parent `i` has met, `stale[i]` says that it came in with an
      entry for the joined table. The first `settled` parents are finalised and dropped. `emitted` is
      the bag of rows sent, as they concern the tables up to the joined one. */
  datatype Ledger = Ledger(parents: seq<Source>, seen: seq<nat>, stale: seq<bool>, settled: nat,
                           emitted: multiset<Source>)

  ghost predicate WellFormed(l: Ledger, children: seq<Row>) {
    && |l.seen| == |l.parents| == |l.stale|
    && l.settled <= |l.parents|
    && forall i :: 0 <= i < |l.seen| ==> l.seen[i] <= |children|
  }

  /** A buffered row still shows the parent it stands for, and is marked iff it counts as sent. */
  ghost predicate Faithful(j: Join, l: Ledger, children: seq<Row>, i: nat, row: Source)
    requires WellFormed(l, children) && i < |l.parents|
  {
    && Upto(row, j.from) == l.parents[i]
    && (j.from in row <==> l.stale[i] || Matches(j, l.parents[i], children[..l.seen[i]]) != [])
  }

  ghost predicate AllFaithful(j: Join, l: Ledger, children: seq<Row>, rows: seq<Source>)
    requires WellFormed(l, children) && l.settled + |rows| == |l.parents|
  {
    forall i :: 0 <= i < |rows| ==> Faithful(j, l, children, l.settled + i, rows[i])
  }

  /** What was sent is exactly the matches met so far and the null rows of the finalised parents. */
  ghost predicate Balanced(j: Join, l: Ledger, children: seq<Row>)
    requires WellFormed(l, children)
  {
    l.emitted == MatchedSoFar(j, l.parents, children, l.seen) +
                 NullRows(j, l.parents[..l.settled], children, l.stale[..l.settled])
  }

  /** The ledger agrees with the buffers: `rows` are the sources of the parents still buffered. */
  ghost predicate Agrees(j: Join, l: Ledger, children: seq<Row>, rows: seq<Source>) {
    && WellFormed(l, children) && l.settled + |rows| == |l.parents|
    && AllFaithful(j, l, children, rows)
    && Balanced(j, l, children)
  }

  /** Row `i` meets its next child `c`, and is sent iff they match. */
  ghost function Meeting(j: Join, l: Ledger, i: nat, c: Row): Ledger
    requires i < |l.parents| == |l.seen|
  {
    var w := Paired(j, l.parents[i], c);
    l.(seen := l.seen[i := l.seen[i] + 1],
       emitted := l.emitted + (if Holds(j, w) then multiset{w} else multiset{}))
  }

  lemma BalancedMeeting(j: Join, l: Ledger, children: seq<Row>, i: nat)
    requires WellFormed(l, children) && Balanced(j, l, children)
    requires i < |l.parents| && l.seen[i] < |children|
    ensures
      var l' := Meeting(j, l, i, children[l.seen[i]]);
      WellFormed(l', children) && Balanced(j, l', children)
  {
    hide NullRows, MatchedSoFar, Matches;
    MatchedAdvance(j, l.parents, children, l.seen, i);
  }

  lemma FaithfulMeeting(j: Join, l: Ledger, children: seq<Row>, rows: seq<Source>, i: nat, row: Source)
    requires WellFormed(l, children) && l.settled + |rows| == |l.parents| && AllFaithful(j, l, children, rows)
    requires i < |rows| && l.seen[l.settled + i] < |children|
    requires Upto(row, j.from) == Upto(rows[i], j.from)
    requires
      var w := Paired(j, l.parents[l.settled + i], children[l.seen[l.settled + i]]);
      j.from in row <==> j.from in rows[i] || Holds(j, w)
    ensures
      var l' := Meeting(j, l, l.settled + i, children[l.seen[l.settled + i]]);
      WellFormed(l', children) && AllFaithful(j, l', children, rows[i := row])
  {
    hide NullRows, MatchedSoFar, Matches;
    var at := l.settled + i;
    var l' := Meeting(j, l, at, children[l.seen[at]]);
    assert Faithful(j, l, children, at, rows[i]);
    MatchedAdvance(j, l.parents, children, l.seen, at);
    assert Faithful(j, l', children, at, row);
    forall k: nat {:trigger rows[k]} | k < |rows| && k != i
      ensures Faithful(j, l', children, l'.settled + k, rows[k])
    {
      assert Faithful(j, l, children, l.settled + k, rows[k]);
    }
  }

  /** ... so the ledger still agrees with the buffers. */
  lemma AgreesMeeting(j: Join, l: Ledger, children: seq<Row>, rows: seq<Source>, i: nat, row: Source)
    requires Agrees(j, l, children, rows)
    requires i < |rows| && l.seen[l.settled + i] < |children|
    requires Upto(row, j.from) == Upto(rows[i], j.from)
    requires
      var w := Paired(j, l.parents[l.settled + i], children[l.seen[l.settled + i]]);
      j.from in row <==> j.from in rows[i] || Holds(j, w)
    ensures Agrees(j, Meeting(j, l, l.settled + i, children[l.seen[l.settled + i]]), children, rows[i := row])
  {
    hide AllFaithful, Balanced, Upto, Holds, Paired;
    BalancedMeeting(j, l, children, l.settled + i);
    FaithfulMeeting(j, l, children, rows, i, row);
  }

  /** A row with a child written into it shows the pair. */
  lemma PairShown(j: Join, s: Source, child: Row)
    ensures Upto(s[j.from := Some(child)], j.from + 1) == Paired(j, Upto(s, j.from), child)
  {
    UptoPaired(j, s, Some(child));
  }

  /** A buffered row shows the parent it stands for. */
  lemma AgreesAt(j: Join, l: Ledger, children: seq<Row>, rows: seq<Source>, i: nat)
    requires Agrees(j, l, children, rows) && i < |rows|
    ensures l.settled + i < |l.parents| == |l.seen| && Upto(rows[i], j.from) == l.parents[l.settled + i]
  {
    hide Upto, Matches, Balanced;
    assert Faithful(j, l, children, l.settled + i, rows[i]);
  }

  /** Children that nobody has met yet. */
  lemma AgreesMoreChildren(j: Join, l: Ledger, children: seq<Row>, more: seq<Row>, rows: seq<Source>)
    requires Agrees(j, l, children, rows) && l.settled == 0
    ensures Agrees(j, l, children + more, rows)
  {
    hide NullRows, MatchedSoFar, Matches;
    MatchedMoreChildren(j, l.parents, children, more, l.seen);
    assert l.parents[..0] == [] && l.stale[..0] == [];
    NoNullRows(j, children);
    NoNullRows(j, children + more);
    forall i: nat {:trigger rows[i]} | i < |rows|
      ensures Faithful(j, l, children + more, i, rows[i])
    {
      assert Faithful(j, l, children, l.settled + i, rows[i]);
      assert (children + more)[..l.seen[i]] == children[..l.seen[i]];
    }
  }

  lemma NoNullRows(j: Join, children: seq<Row>)
    ensures NullRows(j, [], children, []) == multiset{}
  {
  }

  /** Parents arriving with the sources `more`, before they meet anybody. */
  ghost function Arriving(j: Join, l: Ledger, more: seq<Source>): Ledger {
    l.(parents := l.parents + AllUpto(more, j.from),
       seen := l.seen + All(|more|, 0),
       stale := l.stale + Flags(j, more))
  }

  /** Which rows carry an entry for the joined table. */
  ghost function Flags(j: Join, rows: seq<Source>): seq<bool> {
    seq(|rows|, i requires 0 <= i < |rows| => j.from in rows[i])
  }

  lemma AgreesMoreParents(j: Join, l: Ledger, children: seq<Row>, rows: seq<Source>, more: seq<Source>)
    requires Agrees(j, l, children, rows)
    ensures Agrees(j, Arriving(j, l, more), children, rows + more)
  {
    var l' := Arriving(j, l, more);
    hide NullRows, MatchedSoFar, Matches;
    MatchedMoreParents(j, l.parents, AllUpto(more, j.from), children, l.seen);
    assert l'.parents[..l.settled] == l.parents[..l.settled];
    assert l'.stale[..l.settled] == l.stale[..l.settled];
    forall i: nat {:trigger (rows + more)[i]} | i < |rows + more|
      ensures Faithful(j, l', children, l.settled + i, (rows + more)[i])
    {
      if i < |rows| {
        assert Faithful(j, l, children, l.settled + i, rows[i]);
      } else {
        assert l'.parents[l.settled + i] == AllUpto(more, j.from)[i - |rows|];
        assert l'.seen[l.settled + i] == 0;
        NothingMet(j, l'.parents[l.settled + i], children);
      }
    }
  }

  /** Finalising the first buffered parent: a LEFT JOIN sends it with a null row unless it is marked. */
  ghost function Settling(j: Join, l: Ledger, row: Source): Ledger {
    l.(settled := l.settled + 1,
       emitted := l.emitted + (if j.from in row then multiset{} else multiset{Upto(row, j.from)[j.from := None]}))
  }

  lemma NullRowsStep(j: Join, l: Ledger, children: seq<Row>)
    requires WellFormed(l, children) && l.settled < |l.parents|
    ensures
      var n := l.settled;
      NullRows(j, l.parents[..n + 1], children, l.stale[..n + 1]) ==
      NullRows(j, l.parents[..n], children, l.stale[..n]) +
      (if !l.stale[n] && Matches(j, l.parents[n], children) == []
       then multiset{l.parents[n][j.from := None]} else multiset{})
  {
    hide Matches;
    var n := l.settled;
    assert l.parents[..n + 1][..n] == l.parents[..n] && l.stale[..n + 1][..n] == l.stale[..n];
  }

  lemma AgreesSettling(j: Join, l: Ledger, children: seq<Row>, rows: seq<Source>)
    requires Agrees(j, l, children, rows) && rows != []
    requires l.seen[l.settled] == |children|
    ensures Agrees(j, Settling(j, l, rows[0]), children, rows[1..])
  {
    hide MatchedSoFar, Matches, NullRows;
    var n := l.settled;
    var l' := Settling(j, l, rows[0]);
    assert Balanced(j, l', children) by {
      assert Faithful(j, l, children, n + 0, rows[0]);
      assert children[..|children|] == children;
      NullRowsStep(j, l, children);
    }
    assert AllFaithful(j, l', children, rows[1..]) by {
      forall i: nat {:trigger rows[1..][i]} | i < |rows| - 1
        ensures Faithful(j, l', children, n + 1 + i, rows[1..][i])
      {
        assert Faithful(j, l, children, n + (i + 1), rows[i + 1]);
      }
    }
  }

  /** A stage that is through with all its rows has sent the nested-loop answer if and only if no
      parent of a LEFT JOIN came in marked while matching nothing. */
  lemma FinishedIffUnmarked(j: Join, l: Ledger, children: seq<Row>)
    requires WellFormed(l, children) && Balanced(j, l, children)
    requires l.seen == All(|l.parents|, |children|)
    requires l.settled == if j.isLeft then |l.parents| else 0
    ensures l.emitted == multiset(NestedLoop(j, l.parents, children)) <==>
            (j.isLeft ==> forall i :: 0 <= i < |l.parents| && l.stale[i] ==> Matches(j, l.parents[i], children) != [])
  {
    hide NullRows, MatchedSoFar, Matches, NestedLoop;
    CompleteIsNestedLoop(j, l.parents, children, NoneStale(|l.parents|));
    assert l.parents[..|l.parents|] == l.parents && l.stale[..|l.stale|] == l.stale;
    var answer, matched := multiset(NestedLoop(j, l.parents, children)), MatchedSoFar(j, l.parents, children, l.seen);
    if j.isLeft {
      var lost := set i | 0 <= i < |l.parents| && l.stale[i] && Matches(j, l.parents[i], children) == [];
      FewerNullRows(j, l.parents, children, l.stale, lost);
      if lost == {} {
        forall i | 0 <= i < |l.parents| && l.stale[i]
          ensures Matches(j, l.parents[i], children) != []
        {
          assert i !in lost;
        }
        SameNullRows(j, l.parents, children, l.stale);
      }
      var sent := NullRows(j, l.parents, children, l.stale);
      var due := NullRows(j, l.parents, children, NoneStale(|l.parents|));
      assert |l.emitted| == |matched| + |sent| && |answer| == |matched| + |due|;
    } else {
      assert l.parents[..0] == [] && l.stale[..0] == [];
      NoNullRows(j, children);
    }
  }

  /** Before the child side is done a stage has sent exactly the matches so far, and no null row. */
  lemma UnfinishedIsInner(j: Join, l: Ledger, children: seq<Row>)
    requires WellFormed(l, children) && Balanced(j, l, children)
    requires l.seen == All(|l.parents|, |children|) && l.settled == 0
    ensures l.emitted == multiset(NestedLoop(j.(isLeft := false), l.parents, children))
  {
    InnerMatches(j, l.parents, children);
    NoNullRows(j, children);
    assert l.parents[..0] == [] && l.stale[..0] == [];
  }

  lemma {:induction false} InnerMatches(j: Join, parents: seq<Source>, children: seq<Row>)
    ensures MatchedSoFar(j, parents, children, All(|parents|, |children|)) ==
            multiset(NestedLoop(j.(isLeft := false), parents, children))
  {
    hide Matches, MatchedSoFar, NestedLoop;
    if parents == [] {
      NothingToJoin(j, children);
      NothingToJoin(j.(isLeft := false), children);
      assert parents == [] && All(0, |children|) == [];
    } else {
      var n, seen := |parents| - 1, All(|parents|, |children|);
      assert seen[..n] == All(n, |children|) && children[..|children|] == children;
      MatchedLast(j, parents, children, seen);
      NestedLast(j.(isLeft := false), parents, children);
      SameMatches(j, parents[n], children);
      InnerMatches(j, parents[..n], children);
    }
  }

  lemma {:induction false} SameMatches(j: Join, p: Source, children: seq<Row>)
    ensures Matches(j.(isLeft := false), p, children) == Matches(j, p, children)
  {
    if children != [] {
      SameMatches(j, p, children[..|children| - 1]);
    }
  }

  /** The sources of some rows, as they are now. */
  function Sources(rows: seq<SourceRow>): seq<Source>
    reads rows
  {
    seq(|rows|, i requires 0 <= i < |rows| reads rows => rows[i].source)
  }

  ghost function AllUpto(rows: seq<Source>, n: nat): seq<Source> {
    seq(|rows|, i requires 0 <= i < |rows| => Upto(rows[i], n))
  }

  lemma DistinctNext<T>(a: seq<T>, b: seq<T>, k: nat)
    requires Distinct(a + b) && k < |b|
    ensures b[k] !in a + b[..k] && b[k] !in b[k + 1..]
  {
    assert (a + b)[|a| + k] == b[k];
    forall q | k < q < |b|
      ensures b[q] != b[k]
    {
      assert (a + b)[|a| + q] == b[q];
    }
    forall q | 0 <= q < |a| + k
      ensures (a + b[..k])[q] != b[k]
    {
      assert (a + b[..k])[q] == (a + b)[q];
    }
  }

  // ----- The stage -----

  /** A parent that is about to meet a child, and what has been sent before. */
  datatype Push = Push(parent: SourceRow, outputs: seq<SourceRow>, known: set<SourceRow>, templates: set<Source>)

  class Stage {
    const join: Join
    var parentRows: seq<SourceRow>
    var childRows: seq<Row>
    ghost var ledger: Ledger
    // Whether the child side was done, as of the last callback.
    var childDone: bool

    constructor (j: Join)
      ensures join == j && Valid()
      ensures parentRows == [] && childRows == [] && !childDone
      ensures ledger == Ledger([], [], [], 0, multiset{})
    {
      join := j;
      parentRows, childRows, ledger, childDone := [], [], Ledger([], [], [], 0, multiset{}), false;
    }

    ghost predicate Invariant()
      reads this, parentRows
    {
      && Agrees(join, ledger, childRows, Sources(parentRows))
      && Distinct(parentRows)
      && (ledger.settled > 0 ==> join.isLeft && childDone)
    }

    /** Between callbacks every parent has met every child, and a finished LEFT JOIN keeps no parent. */
    ghost predicate Valid()
      reads this, parentRows
    {
      && Invariant()
      && ledger.seen == All(|ledger.parents|, |childRows|)
      && (join.isLeft && childDone ==> parentRows == [])
    }

    /** Pairs `parent` with `child`; sends a new row, or the parent itself when it was not sent before. */
    method HandleParentChild(parent: SourceRow, child: Row) returns (sent: Option<SourceRow>)
      requires Scoped(join)
      modifies parent
      ensures sent.Some? <==> Holds(join, Paired(join, Upto(old(parent.source), join.from), child))
      ensures sent.None? ==> parent.source == old(parent.source)
      ensures sent.Some? ==> sent.value.source == old(parent.source)[join.from := Some(child)]
      ensures sent.Some? ==> join.from in parent.source
      ensures parent.source == old(parent.source) || parent.source == old(parent.source)[join.from := Some(child)]
      ensures join.on.None? && join.from in old(parent.source) ==> parent.source == old(parent.source)
      ensures sent.Some? ==>
                || fresh(sent.value)
                || (sent.value == parent && join.on.None? && join.from !in old(parent.source))
      ensures join.on.None? && join.from !in old(parent.source) ==> sent == Some(parent)
    {
      HoldsScoped(join, parent.source, child);
      if join.on.Some? {
        var source := parent.source[join.from := Some(child)];
        var row := new SourceRow(source);
        if join.on.value(row.source) {
          parent.source := parent.source[join.from := Some(child)];
          return Some(row);
        }
        return None;
      } else if join.from in parent.source {
        var row := new SourceRow(parent.source[join.from := Some(child)]);
        return Some(row);
      } else {
        parent.source := parent.source[join.from := Some(child)];
        return Some(parent);
      }
    }

    // ----- What a callback does to the rows it touches -----

    /** `outputs` are distinct rows, each with an entry for our table and otherwise a copy of one of
        `templates`; with an ON clause none of them is one of the rows `known`. */
    ghost predicate Sendable(outputs: seq<SourceRow>, known: set<SourceRow>, templates: set<Source>)
      reads outputs
    {
      && Distinct(outputs)
      && (forall o :: o in outputs ==> join.from in o.source && Others(o.source, join.from) in templates)
      && (join.on.Some? ==> forall o :: o in outputs ==> o !in known)
    }

    /** Rows of `known` change at most at our table's entry, and a join without ON writes that once. */
    twostate predicate Marks(known: set<SourceRow>)
      reads this, known
    {
      forall r :: r in known ==>
        && Others(r.source, join.from) == Others(old(r.source), join.from)
        && (join.from in old(r.source) ==> join.from in r.source)
        && (join.on.None? && join.from in old(r.source) ==> r.source == old(r.source))
    }

    /** What is newly sent is a new row or a row of `known` not sent before; an inner join with an ON
        clause only sends new rows. */
    twostate predicate Sends(known: set<SourceRow>, before: seq<SourceRow>, new outputs: seq<SourceRow>)
      reads this, known
    {
      && before <= outputs
      && forall o :: o in outputs ==>
           || o in before
           || fresh(o)
           || (o in known && (join.on.None? || join.isLeft) && join.from !in old(o.source))
    }

    /** A join without ON marks a row only by sending it. */
    twostate predicate Tells(known: set<SourceRow>, new outputs: seq<SourceRow>)
      reads this, known
    {
      join.on.None? ==>
        forall r :: r in known && join.from in r.source && join.from !in old(r.source) ==> r in outputs
    }

    /** What some sent rows show of the tables up to ours. */
    ghost function Shown(outputs: seq<SourceRow>): seq<Source>
      reads outputs
    {
      AllUpto(Sources(outputs), join.from + 1)
    }

    /** One step of the nested loops: row `i` of the buffer meets the next child it has not met. */
    method Meet(ghost i: nat, parent: SourceRow, child: Row) returns (sent: Option<SourceRow>)
      requires Scoped(join)
      requires Invariant() && i < |parentRows| && parentRows[i] == parent
      requires ledger.seen[ledger.settled + i] < |childRows| && childRows[ledger.seen[ledger.settled + i]] == child
      modifies `ledger, parent
      ensures Invariant() && ledger == old(Meeting(join, ledger, ledger.settled + i, child))
      ensures
        var w := Paired(join, old(ledger.parents[ledger.settled + i]), child);
        && (sent.Some? <==> Holds(join, w))
        && (sent.Some? ==> Upto(sent.value.source, join.from + 1) == w)
      ensures sent.Some? ==> Others(sent.value.source, join.from) == Others(old(parent.source), join.from)
      ensures sent.Some? ==> join.from in sent.value.source && join.from in parent.source
      ensures Marks({parent})
      ensures sent.Some? ==>
                || fresh(sent.value)
                || (sent.value == parent && join.on.None? && join.from !in old(parent.source))
      ensures join.on.None? && join.from !in old(parent.source) ==> sent == Some(parent)
    {
      hide Agrees, Holds, Upto, Others, Scoped, Paired;
      ghost var was, at, src := Sources(parentRows), ledger.settled + i, parent.source;
      AgreesAt(join, ledger, childRows, was, i);
      ghost var w := Paired(join, ledger.parents[at], child);
      WriteEntry(src, join.from, Some(child));
      PairShown(join, src, child);
      sent := HandleParentChild(parent, child);
      if sent.Some? {
        assert sent.value.source == src[join.from := Some(child)];
        assert Upto(sent.value.source, join.from + 1) == w;
      }
      assert Sources(parentRows) == was[i := parent.source];
      AgreesMeeting(join, ledger, childRows, was, i, parent.source);
      ledger := Meeting(join, ledger, at, child);
      assert Invariant();
      assert Marks({parent});
    }

    /** Only the counters and the bag of sent rows of the ledger move. */
    static ghost predicate SameParents(l: Ledger, l': Ledger) {
      l'.parents == l.parents && l'.stale == l.stale && l'.settled == l.settled
    }

    /** On top of `base`, the rows pushed in this callback are all that was sent. */
    ghost predicate Accounts(base: multiset<Source>, outputs: seq<SourceRow>)
      reads `ledger, outputs
    {
      ledger.emitted == base + multiset(Shown(outputs))
    }

    /** Pushing a row that shows `w`. */
    lemma ShownSnoc(outputs: seq<SourceRow>, row: SourceRow)
      ensures multiset(Shown(outputs + [row])) == multiset(Shown(outputs)) + multiset{Upto(row.source, join.from + 1)}
    {
      assert Shown(outputs + [row]) == Shown(outputs) + [Upto(row.source, join.from + 1)];
    }

    lemma SendableSnoc(outputs: seq<SourceRow>, row: SourceRow, known: set<SourceRow>, templates: set<Source>)
      requires Sendable(outputs, known, templates) && row !in outputs
      requires join.from in row.source && Others(row.source, join.from) in templates
      requires join.on.Some? ==> row !in known
      ensures Sendable(outputs + [row], known, templates)
    {
    }

    /** ... and what it sends is pushed to the callback's output. */
    method MeetAndPush(ghost i: nat, parent: SourceRow, child: Row, outputs: seq<SourceRow>,
                       ghost known: set<SourceRow>, ghost templates: set<Source>, ghost base: multiset<Source>)
      returns (outputs': seq<SourceRow>)
      requires Scoped(join)
      requires Invariant() && i < |parentRows| && parentRows[i] == parent
      requires ledger.seen[ledger.settled + i] < |childRows| && childRows[ledger.seen[ledger.settled + i]] == child
      requires parent in known && Others(parent.source, join.from) in templates
      requires Sendable(outputs, known, templates) && Accounts(base, outputs)
      modifies `ledger, parent
      ensures Invariant() && SameParents(old(ledger), ledger)
      ensures ledger.seen == old(ledger.seen[ledger.settled + i := ledger.seen[ledger.settled + i] + 1])
      ensures Sendable(outputs', known, templates) && Accounts(base, outputs')
      ensures Marks({parent}) && Sends({parent}, outputs, outputs') && Tells({parent}, outputs')
    {
      hide NullRows, MatchedSoFar, Matches, AllFaithful, Balanced, Scoped, Upto, Others, Holds, Sendable, Shown;
      var sent := Meet(i, parent, child);
      SentRowsKept(Push(parent, outputs, known, templates));
      if sent.Some? {
        assert sent.value !in outputs;
        ShownSnoc(outputs, sent.value);
        SendableSnoc(outputs, sent.value, known, templates);
        outputs' := outputs + [sent.value];
      } else {
        outputs' := outputs;
      }
    }

    /** Rows sent before keep what they hold: a parent among them is already marked, and has no ON. */
    twostate lemma SentRowsKept(p: Push)
      requires p.parent in p.known && Marks({p.parent}) && old(Sendable(p.outputs, p.known, p.templates))
      requires forall o :: o in p.outputs && o != p.parent ==> o.source == old(o.source)
      ensures forall o :: o in p.outputs ==> o.source == old(o.source)
      ensures Sendable(p.outputs, p.known, p.templates) && Shown(p.outputs) == old(Shown(p.outputs))
    {
      assert Sources(p.outputs) == old(Sources(p.outputs));
    }

    /** A new parent meets every child seen so far. */
    method MeetChildren(ghost i: nat, parent: SourceRow, outputs: seq<SourceRow>,
                        ghost known: set<SourceRow>, ghost templates: set<Source>, ghost base: multiset<Source>)
      returns (outputs': seq<SourceRow>)
      requires Scoped(join)
      requires Invariant() && i < |parentRows| && parentRows[i] == parent && ledger.seen[ledger.settled + i] == 0
      requires parent in known && Others(parent.source, join.from) in templates
      requires Sendable(outputs, known, templates) && Accounts(base, outputs)
      modifies `ledger, parent
      ensures Invariant() && SameParents(old(ledger), ledger)
      ensures ledger.seen == old(ledger.seen)[ledger.settled + i := |childRows|]
      ensures Sendable(outputs', known, templates) && Accounts(base, outputs')
      ensures Marks({parent}) && Sends({parent}, outputs, outputs') && Tells({parent}, outputs')
    {
      hide NullRows, MatchedSoFar, Matches, AllFaithful, Balanced, Upto, Others, Shown;
      outputs' := outputs;
      ghost var at := ledger.settled + i;
      for j := 0 to |childRows|
        invariant Invariant() && SameParents(old(ledger), ledger) && ledger.seen == old(ledger.seen)[at := j]
        invariant Sendable(outputs', known, templates) && Accounts(base, outputs')
        invariant Marks({parent}) && Sends({parent}, outputs, outputs') && Tells({parent}, outputs')
      {
        outputs' := MeetAndPush(i, parent, childRows[j], outputs', known, templates, base);
      }
    }

    /** What is recorded about arriving parents: their view of the earlier tables, and whether they
        already carry an entry for ours. */
    ghost predicate Arrived(l: Ledger, l': Ledger, sources: seq<Source>) {
      && l'.parents == l.parents + AllUpto(sources, join.from)
      && l'.stale == l.stale + Flags(join, sources)
      && l'.settled == l.settled
    }

    /** The callback's parent half: buffer the batch, and check each of its rows against the children so far. */
    method AddParents(batch: seq<SourceRow>, ghost rows: set<SourceRow>,
                      ghost known: set<SourceRow>, ghost templates: set<Source>)
      returns (outputs: seq<SourceRow>)
      requires Scoped(join) && Invariant() && ledger.seen == All(|ledger.parents|, |childRows|)
      requires Distinct(parentRows + batch) && rows == (set r | r in batch)
      requires forall r :: r in rows ==> r in known && Others(r.source, join.from) in templates
      modifies `parentRows, `ledger, rows
      ensures parentRows == old(parentRows) + batch
      ensures Invariant() && Arrived(old(ledger), ledger, old(Sources(batch)))
      ensures ledger.seen == All(|ledger.parents|, |childRows|)
      ensures Sendable(outputs, known, templates) && Accounts(old(ledger.emitted), outputs)
      ensures Marks(rows) && Sends(rows, [], outputs) && Tells(rows, outputs)
    {
      hide NullRows, MatchedSoFar, Matches, AllFaithful, Balanced, Upto, Others, Holds;
      if |childRows| == 0 {
        ghost var sources := Sources(batch);
        AgreesMoreParents(join, ledger, childRows, Sources(parentRows), sources);
        ledger := Arriving(join, ledger, sources);
        parentRows := parentRows + batch;
        assert Sources(parentRows) == old(Sources(parentRows)) + sources;
        outputs := [];
      } else {
        outputs := AddEachParent(batch, rows, known, templates);
      }
    }

    method AddEachParent(batch: seq<SourceRow>, ghost rows: set<SourceRow>,
                         ghost known: set<SourceRow>, ghost templates: set<Source>)
      returns (outputs: seq<SourceRow>)
      requires Scoped(join) && Invariant() && ledger.seen == All(|ledger.parents|, |childRows|)
      requires Distinct(parentRows + batch) && rows == (set r | r in batch)
      requires forall r :: r in rows ==> r in known && Others(r.source, join.from) in templates
      modifies `parentRows, `ledger, rows
      ensures parentRows == old(parentRows) + batch
      ensures Invariant() && Arrived(old(ledger), ledger, old(Sources(batch)))
      ensures ledger.seen == All(|ledger.parents|, |childRows|)
      ensures Sendable(outputs, known, templates) && Accounts(old(ledger.emitted), outputs)
      ensures Marks(rows) && Sends(rows, [], outputs) && Tells(rows, outputs)
    {
      hide Invariant, Arrived, Sendable, Accounts, Scoped, Upto, AllUpto, Flags;
      outputs := [];
      ghost var sources, base := Sources(batch), ledger.emitted;
      NothingPushed(known, templates);
      for k := 0 to |batch|
        invariant parentRows == old(parentRows) + batch[..k]
        invariant Invariant() && Arrived(old(ledger), ledger, sources[..k])
        invariant ledger.seen == All(|ledger.parents|, |childRows|)
        invariant forall r :: r in batch[k..] ==> r.source == old(r.source)
        invariant Sendable(outputs, known, templates) && Accounts(base, outputs)
        invariant Marks(rows) && Sends(rows, [], outputs) && Tells(rows, outputs)
      {
        DistinctNext(old(parentRows), batch, k);
        assert batch[k] in batch[k..];
        ghost var l := ledger;
        outputs := AddParent(batch[k], outputs, known, templates, base);
        ArrivedStep(old(ledger), l, ledger, sources, k);
        assert batch[..k + 1] == batch[..k] + [batch[k]];
      }
      assert batch[..|batch|] == batch && sources[..|batch|] == sources;
    }

    lemma NothingPushed(known: set<SourceRow>, templates: set<Source>)
      ensures Sendable([], known, templates) && Accounts(ledger.emitted, []) && Arrived(ledger, ledger, [])
    {
    }

    lemma ArrivedStep(l: Ledger, l': Ledger, l'': Ledger, sources: seq<Source>, k: nat)
      requires k < |sources| && Arrived(l, l', sources[..k]) && Arrived(l', l'', [sources[k]])
      ensures Arrived(l, l'', sources[..k + 1])
    {
      assert AllUpto(sources[..k + 1], join.from) ==
             AllUpto(sources[..k], join.from) + AllUpto([sources[k]], join.from);
      assert Flags(join, sources[..k + 1]) == Flags(join, sources[..k]) + Flags(join, [sources[k]]);
    }

    method AddParent(parent: SourceRow, outputs: seq<SourceRow>,
                     ghost known: set<SourceRow>, ghost templates: set<Source>, ghost base: multiset<Source>)
      returns (outputs': seq<SourceRow>)
      requires Scoped(join) && Invariant() && ledger.seen == All(|ledger.parents|, |childRows|)
      requires parent !in parentRows
      requires parent in known && Others(parent.source, join.from) in templates
      requires Sendable(outputs, known, templates) && Accounts(base, outputs)
      modifies `parentRows, `ledger, parent
      ensures parentRows == old(parentRows) + [parent]
      ensures Invariant() && Arrived(old(ledger), ledger, [old(parent.source)])
      ensures ledger.seen == All(|ledger.parents|, |childRows|)
      ensures Sendable(outputs', known, templates) && Accounts(base, outputs')
      ensures Marks({parent}) && Sends({parent}, outputs, outputs') && Tells({parent}, outputs')
    {
      hide NullRows, MatchedSoFar, Matches, AllFaithful, Balanced, Upto, AllUpto, Flags, Others, Holds, Sendable,
           Scoped, Shown;
      ghost var i := |parentRows|;
      AgreesMoreParents(join, ledger, childRows, Sources(parentRows), [parent.source]);
      ledger := Arriving(join, ledger, [parent.source]);
      parentRows := parentRows + [parent];
      assert Sources(parentRows) == old(Sources(parentRows)) + [parent.source];
      outputs' := MeetChildren(i, parent, outputs, known, templates, base);
    }

    /** A new child meets every buffered parent. */
    method MeetParents(child: Row, outputs: seq<SourceRow>, ghost rows: set<SourceRow>,
                       ghost known: set<SourceRow>, ghost templates: set<Source>, ghost base: multiset<Source>)
      returns (outputs': seq<SourceRow>)
      requires Scoped(join) && Invariant() && ledger.settled == 0
      requires childRows != [] && childRows[|childRows| - 1] == child
      requires ledger.seen == All(|ledger.parents|, |childRows| - 1)
      requires rows == (set r | r in parentRows)
      requires forall r :: r in rows ==> r in known && Others(r.source, join.from) in templates
      requires Sendable(outputs, known, templates) && Accounts(base, outputs)
      modifies `ledger, rows
      ensures Invariant() && SameParents(old(ledger), ledger)
      ensures ledger.seen == All(|ledger.parents|, |childRows|)
      ensures Sendable(outputs', known, templates) && Accounts(base, outputs')
      ensures Marks(rows) && Sends(rows, outputs, outputs') && Tells(rows, outputs')
    {
      hide NullRows, MatchedSoFar, Matches, AllFaithful, Balanced, Sendable, Accounts, Scoped, Upto, AllUpto, Others;
      outputs' := outputs;
      for k := 0 to |parentRows|
        invariant Invariant() && SameParents(old(ledger), ledger)
        invariant ledger.seen == Ragged(|ledger.parents|, k, |childRows| - 1)
        invariant Sendable(outputs', known, templates) && Accounts(base, outputs')
        invariant Marks(rows) && Sends(rows, outputs, outputs') && Tells(rows, outputs')
      {
        assert parentRows[k] in rows;
        outputs' := MeetAndPush(k, parentRows[k], child, outputs', known, templates, base);
      }
    }

    /** The callback's child half: buffer the batch, and check each child against the parents so far. */
    method AddChildren(batch: seq<Row>, outputs: seq<SourceRow>, ghost rows: set<SourceRow>,
                       ghost known: set<SourceRow>, ghost templates: set<Source>, ghost base: multiset<Source>)
      returns (outputs': seq<SourceRow>)
      requires Scoped(join) && Invariant() && ledger.settled == 0
      requires ledger.seen == All(|ledger.parents|, |childRows|)
      requires rows == (set r | r in parentRows)
      requires forall r :: r in rows ==> r in known && Others(r.source, join.from) in templates
      requires Sendable(outputs, known, templates) && Accounts(base, outputs)
      modifies `childRows, `ledger, rows
      ensures childRows == old(childRows) + batch
      ensures Invariant() && SameParents(old(ledger), ledger)
      ensures ledger.seen == All(|ledger.parents|, |childRows|)
      ensures Sendable(outputs', known, templates) && Accounts(base, outputs')
      ensures Marks(rows) && Sends(rows, outputs, outputs') && Tells(rows, outputs')
    {
      hide NullRows, MatchedSoFar, Matches, AllFaithful, Balanced, Sendable, Accounts, Scoped, Upto, AllUpto, Others;
      outputs' := outputs;
      if |parentRows| == 0 {
        AgreesMoreChildren(join, ledger, childRows, batch, Sources(parentRows));
        childRows := childRows + batch;
      } else {
        for k := 0 to |batch|
          invariant childRows == old(childRows) + batch[..k]
          invariant Invariant() && SameParents(old(ledger), ledger)
          invariant ledger.seen == All(|ledger.parents|, |childRows|)
          invariant Sendable(outputs', known, templates) && Accounts(base, outputs')
          invariant Marks(rows) && Sends(rows, outputs, outputs') && Tells(rows, outputs')
        {
          AgreesMoreChildren(join, ledger, childRows, [batch[k]], Sources(parentRows));
          childRows := childRows + [batch[k]];
          outputs' := MeetParents(batch[k], outputs', rows, known, templates, base);
          assert batch[..k + 1] == batch[..k] + [batch[k]];
        }
        assert batch[..|batch|] == batch;
      }
    }

    /** `Sendable` without the claim about ON clauses, which the null rows of a LEFT JOIN break. */
    ghost predicate Sent(outputs: seq<SourceRow>, templates: set<Source>)
      reads outputs
    {
      && Distinct(outputs)
      && forall o :: o in outputs ==> join.from in o.source && Others(o.source, join.from) in templates
    }

    lemma SentSnoc(outputs: seq<SourceRow>, row: SourceRow, templates: set<Source>)
      requires Sent(outputs, templates) && row !in outputs
      requires join.from in row.source && Others(row.source, join.from) in templates
      ensures Sent(outputs + [row], templates)
    {
    }

    lemma UnmarkedNotSent(outputs: seq<SourceRow>, parent: SourceRow, templates: set<Source>)
      requires Sent(outputs, templates) && join.from !in parent.source
      ensures parent !in outputs
    {
    }

    /** Sends one unmarked parent with a null row. */
    method SendNull(parent: SourceRow, outputs: seq<SourceRow>,
                    ghost templates: set<Source>, ghost base: multiset<Source>)
      returns (outputs': seq<SourceRow>)
      requires join.isLeft && Sent(outputs, templates) && Accounts(base, outputs)
      requires Others(parent.source, join.from) in templates
      modifies `ledger, parent
      ensures ledger == old(Settling(join, ledger, parent.source)) && join.from in parent.source
      ensures Sent(outputs', templates) && Accounts(base, outputs')
      ensures Marks({parent}) && Sends({parent}, outputs, outputs') && Tells({parent}, outputs')
    {
      hide Upto, Others, AllUpto, Agrees, Sent, Shown, Sources, Distinct;
      outputs' := outputs;
      ledger := Settling(join, ledger, parent.source);
      if join.from !in parent.source {
        WriteEntry(parent.source, join.from, None);
        UptoPaired(join, parent.source, None);
        UnmarkedNotSent(outputs, parent, templates);
        parent.source := parent.source[join.from := None];
        ShownSnoc(outputs, parent);
        SentSnoc(outputs, parent, templates);
        outputs' := outputs + [parent];
      }
      assert Marks({parent});
      assert Sends({parent}, outputs, outputs');
    }

    /** After the last child, a LEFT JOIN sends every unmarked parent and forgets them all. */
    method Finalise(outputs: seq<SourceRow>, ghost rows: set<SourceRow>,
                    ghost templates: set<Source>, ghost base: multiset<Source>)
      returns (outputs': seq<SourceRow>)
      requires Invariant() && join.isLeft && childDone
      requires ledger.seen == All(|ledger.parents|, |childRows|)
      requires rows == (set r | r in parentRows)
      requires forall r :: r in rows ==> Others(r.source, join.from) in templates
      requires Sent(outputs, templates) && Accounts(base, outputs)
      modifies `parentRows, `ledger, rows
      ensures Valid() && parentRows == []
      ensures ledger.(emitted := multiset{}) == old(ledger).(emitted := multiset{}, settled := |ledger.parents|)
      ensures Sent(outputs', templates) && Accounts(base, outputs')
      ensures forall r :: r in rows ==> join.from in r.source
      ensures Marks(rows) && Sends(rows, outputs, outputs') && Tells(rows, outputs')
    {
      hide NullRows, MatchedSoFar, Matches, AllFaithful, Balanced, Sent, Accounts, Upto, AllUpto, Others;
      outputs' := outputs;
      assert parentRows[0..] == parentRows;
      for k := 0 to |parentRows|
        invariant parentRows == old(parentRows)
        invariant Agrees(join, ledger, childRows, Sources(parentRows[k..]))
        invariant ledger.(emitted := multiset{}) ==
                  old(ledger).(emitted := multiset{}, settled := old(ledger.settled) + k)
        invariant Sent(outputs', templates) && Accounts(base, outputs')
        invariant Marks(rows) && Sends(rows, outputs, outputs') && Tells(rows, outputs')
        invariant forall q :: k <= q < |parentRows| ==> parentRows[q].source == old(parentRows[q].source)
        invariant forall q :: 0 <= q < k ==> join.from in parentRows[q].source
      {
        var parent := parentRows[k];
        assert parent in rows;
        ghost var left := Sources(parentRows[k..]);
        AgreesSettling(join, ledger, childRows, left);
        outputs' := SendNull(parent, outputs', templates, base);
        assert Sources(parentRows[k + 1..]) == left[1..];
      }
      parentRows := [];
      assert Sources(parentRows) == [];
    }

    /** The rows a callback may touch. */
    static ghost function Known(parentRows: seq<SourceRow>, batch: seq<SourceRow>): set<SourceRow> {
      set r | r in parentRows + batch
    }

    static lemma InKnown(parentRows: seq<SourceRow>, batch: seq<SourceRow>)
      ensures forall r :: r in Known(parentRows, batch) <==> r in parentRows || r in batch
    {
    }

    ghost function Templates(known: set<SourceRow>): set<Source>
      reads known
    {
      set r | r in known :: Others(r.source, join.from)
    }

    /** The two matching halves of the callback. */
    method Match(parentBatch: Option<seq<SourceRow>>, childBatch: Option<seq<Row>>,
                 ghost known: set<SourceRow>, ghost templates: set<Source>)
      returns (outputs: seq<SourceRow>)
      requires Scoped(join) && Invariant() && ledger.seen == All(|ledger.parents|, |childRows|)
      requires childBatch.Some? ==> ledger.settled == 0
      requires Distinct(parentRows + Items(parentBatch))
      requires known == Known(parentRows, Items(parentBatch)) && templates == Templates(known)
      modifies `parentRows, `childRows, `ledger, known
      ensures Invariant() && ledger.seen == All(|ledger.parents|, |childRows|)
      ensures parentRows == old(parentRows) + Items(parentBatch)
      ensures childRows == old(childRows) + Items(childBatch)
      ensures Arrived(old(ledger), ledger, old(Sources(Items(parentBatch))))
      ensures Sendable(outputs, known, templates) && Accounts(old(ledger.emitted), outputs)
      ensures Marks(known) && Sends(known, [], outputs) && Tells(known, outputs)
    {
      hide NullRows, MatchedSoFar, Matches, AllFaithful, Balanced, Agrees, Accounts, Sendable,
           Upto, AllUpto, Flags, Others, Shown, Scoped;
      ghost var base, sources, rows := ledger.emitted, Sources(Items(parentBatch)), set r | r in Items(parentBatch);
      if parentBatch.Some? {
        outputs := AddParents(parentBatch.value, rows, known, templates);
      } else {
        NothingPushed(known, templates);
        NothingArrived(ledger);
        assert sources == [];
        outputs := [];
      }
      assert parentRows == old(parentRows) + Items(parentBatch);
      assert Marks(known) && Sends(known, [], outputs) && Tells(known, outputs);
      if childBatch.Some? {
        assert known == (set r | r in parentRows);
        outputs := AddChildren(childBatch.value, outputs, known, known, templates, base);
      }
    }

    lemma NothingArrived(l: Ledger)
      ensures Arrived(l, l, [])
    {
    }

    lemma SendableIsSent(outputs: seq<SourceRow>, known: set<SourceRow>, templates: set<Source>)
      requires Sendable(outputs, known, templates)
      ensures Sent(outputs, templates)
      ensures join.on.Some? ==> forall o :: o in outputs ==> o !in known
    {
    }

    twostate lemma MarkedTemplates(known: set<SourceRow>)
      requires Marks(known)
      ensures forall r :: r in known ==> Others(r.source, join.from) in old(Templates(known))
    {
    }

    /** The callback of the stream: at most one batch from each side, and whether either side is done. */
    method Callback(parentBatch: Option<seq<SourceRow>>, childBatch: Option<seq<Row>>, parentDone: bool,
                    childDone: bool, ghost known: set<SourceRow>)
      returns (outputs: seq<SourceRow>)
      requires Scoped(join) && Valid()
      requires Distinct(parentRows + Items(parentBatch)) && known == Known(parentRows, Items(parentBatch))
      requires (this.childDone ==> childDone) && (childBatch.Some? ==> !childDone)
      modifies this, known
      ensures Valid() && this.childDone == childDone
      ensures parentRows == if join.isLeft && childDone then [] else old(parentRows) + Items(parentBatch)
      ensures childRows == old(childRows) + Items(childBatch)
      ensures Arrived(old(ledger), ledger.(settled := old(ledger.settled)), old(Sources(Items(parentBatch))))
      ensures ledger.settled == if join.isLeft && childDone then |ledger.parents| else 0
      ensures ledger.emitted == old(ledger.emitted) + multiset(Shown(outputs))
      ensures Sent(outputs, old(Templates(known))) && Marks(known) && Sends(known, [], outputs) && Tells(known, outputs)
      ensures join.on.Some? ==> forall o :: o in outputs ==> o !in parentRows
      ensures join.isLeft && childDone ==> forall r :: r in known ==> join.from in r.source
    {
      hide NullRows, MatchedSoFar, Matches, AllFaithful, Balanced, Agrees, Upto, AllUpto, Flags, Others, Shown, Scoped,
           Sendable, Sent, Distinct, Templates, Known;
      ghost var templates, base := Templates(known), ledger.emitted;
      this.childDone := childDone;
      outputs := Match(parentBatch, childBatch, known, templates);
      SendableIsSent(outputs, known, templates);
      MarkedTemplates(known);
      InKnown(old(parentRows), Items(parentBatch));
      ghost var before, held := outputs, map r | r in known :: r.source;
      outputs := Conclude(outputs, known, templates, base);
      Concluded(known, held, before, outputs);
    }

    /** The end of the callback: a LEFT JOIN whose children are done is finalised. */
    method Conclude(outputs: seq<SourceRow>, ghost known: set<SourceRow>,
                    ghost templates: set<Source>, ghost base: multiset<Source>)
      returns (outputs': seq<SourceRow>)
      requires Invariant() && ledger.seen == All(|ledger.parents|, |childRows|)
      requires (join.isLeft && childDone) || ledger.settled == 0
      requires forall r :: r in known <==> r in parentRows
      requires forall r :: r in known ==> Others(r.source, join.from) in templates
      requires Sent(outputs, templates) && Accounts(base, outputs)
      requires join.on.Some? ==> forall o :: o in outputs ==> o !in parentRows
      modifies `parentRows, `ledger, known
      ensures Valid() && parentRows == if join.isLeft && childDone then [] else old(parentRows)
      ensures ledger.(emitted := multiset{}) ==
              old(ledger).(emitted := multiset{}, settled := if join.isLeft && childDone then |ledger.parents| else 0)
      ensures Sent(outputs', templates) && Accounts(base, outputs')
      ensures Marks(known) && Sends(known, outputs, outputs') && Tells(known, outputs')
      ensures join.on.Some? ==> forall o :: o in outputs' ==> o !in parentRows
      ensures if join.isLeft && childDone then forall r :: r in known ==> join.from in r.source
              else outputs' == outputs && forall r :: r in known ==> r.source == old(r.source)
    {
      hide NullRows, MatchedSoFar, Matches, AllFaithful, Balanced, Agrees, Upto, AllUpto, Flags, Others, Shown,
           Scoped, Sent;
      outputs' := outputs;
      if childDone && join.isLeft {
        assert known == (set r | r in parentRows);
        outputs' := Finalise(outputs, known, templates, base);
      }
    }

    /** What the two halves of a callback do to the rows, one after the other; `held` is what the rows held
        in between. */
    twostate lemma Concluded(known: set<SourceRow>, new held: map<SourceRow, Source>, new before: seq<SourceRow>,
                             new outputs: seq<SourceRow>)
      requires held.Keys == known && before <= outputs
      requires forall r :: r in known ==>
                 && Others(held[r], join.from) == Others(old(r.source), join.from)
                 && (join.from in old(r.source) ==> join.from in held[r])
                 && (join.on.None? && join.from in old(r.source) ==> held[r] == old(r.source))
      requires forall o :: o in before ==>
                 fresh(o) || (o in known && (join.on.None? || join.isLeft) && join.from !in old(o.source))
      requires join.on.None? ==>
                 forall r :: r in known && join.from in held[r] && join.from !in old(r.source) ==> r in before
      requires forall r :: r in known ==>
                 && Others(r.source, join.from) == Others(held[r], join.from)
                 && (join.from in held[r] ==> join.from in r.source)
                 && (join.on.None? && join.from in held[r] ==> r.source == held[r])
                 && (join.on.None? && join.from in r.source && join.from !in held[r] ==> r in outputs)
      requires forall o :: o in outputs ==>
                 o in before || fresh(o) || (o in known && join.isLeft && join.from !in held[o])
      ensures Marks(known) && Sends(known, [], outputs) && Tells(known, outputs)
    {
      hide Others;
    }
  }

  function Items<T>(batch: Option<seq<T>>): seq<T> {
    match batch
    case None => []
    case Some(items) => items
  }
}
