/** Why a LEFT JOIN must not stand directly behind a join without ON. */
module LostRows {
  import opened Common
  import opened JoinSpec
  import opened JoinStage
  import opened Pipeline

  // ----- Counting rows -----

  /** A join without ON pairs a parent with every child. */
  lemma {:induction false} MatchesAll(j: Join, p: Source, children: seq<Row>)
    requires j.on.None?
    ensures |Matches(j, p, children)| == |children|
  {
    if children != [] {
      MatchesAll(j, p, children[..|children| - 1]);
    }
  }

  /** With one parent it sends as many rows as it has children. */
  lemma CrossCount(stage: Stage)
    requires stage.Valid() && stage.join.on.None? && |stage.ledger.parents| == 1 && stage.childRows != []
    ensures |stage.ledger.emitted| == |stage.childRows|
  {
    hide Matches, AllFaithful;
    var l, j, children := stage.ledger, stage.join, stage.childRows;
    assert children[..|children|] == children;
    MatchesAll(j, l.parents[0], children);
    MatchedLast(j, l.parents, children, l.seen);
    NoNullRow(j, l.parents[..l.settled], children, l.stale[..l.settled]);
  }

  lemma NoNullRow(j: Join, parents: seq<Source>, children: seq<Row>, stale: seq<bool>)
    requires |parents| == |stale| <= 1 && forall i :: 0 <= i < |parents| ==> Matches(j, parents[i], children) != []
    ensures NullRows(j, parents, children, stale) == multiset{}
  {
    hide Matches;
  }

  /** Its parent, if it came in unmarked, is marked. */
  lemma CrossMarks(stage: Stage)
    requires stage.Valid() && stage.join.on.None? && stage.childRows != []
    requires |stage.ledger.parents| == 1 && |stage.parentRows| == 1
    ensures stage.join.from in stage.parentRows[0].source
  {
    hide Matches, MatchedSoFar, NullRows, Balanced;
    var rows := Sources(stage.parentRows);
    assert Faithful(stage.join, stage.ledger, stage.childRows, stage.ledger.settled, rows[0]);
    assert stage.childRows[..|stage.childRows|] == stage.childRows;
    MatchesAll(stage.join, stage.ledger.parents[0], stage.childRows);
  }

  /** What was sent to a stage was handed to it or waits for it. */
  lemma Waiting(chain: Chain, s: nat)
    requires chain.Inv() && s <= |chain.stages|
    ensures |chain.stages| == |chain.joins| && |chain.queues| == |chain.joins| + 1
    ensures (if s < |chain.stages| then |chain.stages[s].ledger.parents| else 0) + |chain.queues[s]| ==
            |chain.Emitted(s)|
  {
    hide Aligned, Chain.StageOk, Chain.QueueKeys, Chain.ParentKeys, Chain.Ahead, Chain.Shared, FirstRows, Upto;
    assert chain.Flow(s);
  }

  lemma StageIs(chain: Chain, s: nat)
    requires chain.Inv() && s < |chain.stages|
    ensures |chain.stages| == |chain.joins| && |chain.queues| == |chain.joins| + 1
    ensures chain.stages[s].Valid() && chain.stages[s].join == chain.joins[s] && chain.joins[s].from == s + 1
    ensures forall t :: 0 <= t < |chain.stages| && t != s ==> chain.stages[t] != chain.stages[s]
    ensures forall r :: r in chain.queues[s] || r in chain.stages[s].parentRows ==> r in chain.rows
  {
    AlignedAt(chain.joins, s);
    hide Aligned, Chain.Flow, Chain.QueueKeys, Chain.ParentKeys, Chain.Ahead, Chain.Shared;
    assert chain.StageOk(s);
  }

  // ----- Steps of the two joins -----

  /** A join without ON, with a LEFT JOIN behind it. */
  ghost predicate Pair(chain: Chain, u: nat)
    reads chain, chain.stages, chain.rows, chain.results
    reads if |chain.queues| == |chain.joins| + 1 then chain.queues[|chain.joins|] else []
  {
    && chain.Inv() && chain.Served()
    && u + 1 < |chain.joins| == |chain.stages| && |chain.queues| == |chain.joins| + 1
    && chain.joins[u].on.None? && chain.joins[u + 1].isLeft
  }

  ghost predicate Unused(stage: Stage)
    reads stage
  {
    stage.parentRows == [] && stage.childRows == [] && !stage.childDone && stage.ledger.parents == []
  }

  /** The stage has not run. */
  twostate predicate Rests(stage: Stage)
    reads stage
  {
    && stage.parentRows == old(stage.parentRows) && stage.childRows == old(stage.childRows)
    && stage.childDone == old(stage.childDone) && stage.ledger == old(stage.ledger)
  }

  /** The join without ON has sent its one parent with every child. */
  lemma CrossSends(chain: Chain, u: nat)
    requires Pair(chain, u) && |chain.stages[u].ledger.parents| == 1 && chain.stages[u].childRows != []
    ensures |chain.stages[u + 1].ledger.parents| + |chain.queues[u + 1]| == |chain.stages[u].childRows|
  {
    hide Chain.Inv, Chain.Served, Stage.Valid;
    StageIs(chain, u);
    Waiting(chain, u + 1);
    CrossCount(chain.stages[u]);
  }

  /** The join without ON meets a row and its first child: it hands on that row itself, and keeps it. */
  method FirstPair(chain: Chain, u: nat, p: SourceRow, a: Row)
    requires Pair(chain, u) && Unused(chain.stages[u]) && Unused(chain.stages[u + 1])
    requires chain.queues[u] == [p] && chain.queues[u + 1] == [] && u + 1 !in p.source
    modifies chain, chain.stages, chain.rows
    ensures Pair(chain, u) && chain.first == old(chain.first) && fresh(chain.rows - old(chain.rows))
    ensures chain.queues[u] == [] && chain.queues[u + 1] == [p]
    ensures chain.stages[u].parentRows == [p] && chain.stages[u].childRows == [a] && !chain.stages[u].childDone
    ensures |chain.stages[u].ledger.parents| == 1 && Unused(chain.stages[u + 1])
  {
    hide Chain.Inv, Chain.Served, Stage.Valid, Chain.Touched, Chain.SentBy, Chain.Noted;
    StageIs(chain, u);
    chain.Prepare(u, Some(1));
    chain.Step(u, Some(1), Some([a]), false, false);
    StageIs(chain, u);
    CrossSends(chain, u);
    CrossMarks(chain.stages[u]);
    assert p in chain.known && p in chain.outputs;
  }

  /** The LEFT JOIN, whose table is empty, takes the one row that waits for it: it notes whether the row is
      marked, and marks it. */
  method PassLeft(chain: Chain, u: nat, r: SourceRow)
    requires Pair(chain, u) && chain.queues[u + 1] == [r]
    requires chain.stages[u + 1].parentRows == [] && chain.stages[u + 1].childRows == []
    modifies chain, chain.stages, chain.rows
    ensures Pair(chain, u) && chain.first == old(chain.first) && fresh(chain.rows - old(chain.rows))
    ensures chain.queues[u] == old(chain.queues)[u] && chain.queues[u + 1] == [] && u + 2 in r.source
    ensures Rests(chain.stages[u])
    ensures
      var stage := chain.stages[u + 1];
      && stage.parentRows == [] && stage.childRows == [] && stage.childDone
      && |stage.ledger.parents| == old(|stage.ledger.parents|) + 1
      && |stage.ledger.stale| == old(|stage.ledger.stale|) + 1
      && (stage.ledger.stale[|stage.ledger.stale| - 1] <==> u + 2 in old(r.source))
  {
    hide Chain.Inv, Chain.Served, Chain.Touched, Chain.SentBy, Stage.Valid;
    StageIs(chain, u);
    StageIs(chain, u + 1);
    chain.Prepare(u + 1, Some(1));
    assert chain.queues[u + 1][..1] == [r] && r in chain.queues[u + 1];
    chain.Step(u + 1, Some(1), None, true, true);
    StageIs(chain, u + 1);
    assert r in chain.known;
  }

  /** The second child: the row is sent already, so a copy of it is handed on, marks and all. */
  method SecondPair(chain: Chain, u: nat, p: SourceRow, a: Row, b: Row) returns (copy: SourceRow)
    requires Pair(chain, u) && chain.queues[u] == [] && chain.queues[u + 1] == [] && u + 2 in p.source
    requires chain.stages[u].parentRows == [p] && chain.stages[u].childRows == [a] && !chain.stages[u].childDone
    requires |chain.stages[u].ledger.parents| == |chain.stages[u + 1].ledger.parents| == 1
    modifies chain, chain.stages, chain.rows
    ensures Pair(chain, u) && chain.first == old(chain.first) && fresh(chain.rows - old(chain.rows))
    ensures chain.queues[u] == [] && chain.queues[u + 1] == [copy] && u + 2 in copy.source
    ensures chain.stages[u].parentRows == [p] && chain.stages[u].childRows == [a, b] && !chain.stages[u].childDone
    ensures |chain.stages[u].ledger.parents| == 1 && Rests(chain.stages[u + 1])
  {
    hide Chain.Inv, Chain.Served, Chain.Signed, Chain.Noted, Stage.Valid, Chain.Touched;
    StageIs(chain, u);
    chain.Prepare(u, None);
    label Before:
    chain.Step(u, None, Some([b]), false, false);
    CrossSends(chain, u);
    copy := chain.queues[u + 1][0];
    assert copy in chain.outputs && copy in chain.rows;
    ghost var r :| r in chain.known && r in old@Before(chain.rows) &&
      Others(copy.source, u + 1) == Others(old@Before(r.source), u + 1);
    OtherEntry(copy.source, old@Before(r.source), u + 1, u + 2);
  }

  /** No more children for the join without ON: it has nothing left to send. */
  method EndCross(chain: Chain, u: nat)
    requires Pair(chain, u) && chain.queues[u] == [] && chain.queues[u + 1] == []
    requires |chain.stages[u].ledger.parents| == 1 && |chain.stages[u].childRows| == 2
    requires |chain.stages[u + 1].ledger.parents| == 2
    modifies chain, chain.stages, chain.rows
    ensures Pair(chain, u) && chain.first == old(chain.first) && fresh(chain.rows - old(chain.rows))
    ensures chain.queues[u] == [] && chain.queues[u + 1] == []
    ensures chain.stages[u].childRows == old(chain.stages[u].childRows) && chain.stages[u].childDone
    ensures Rests(chain.stages[u + 1])
  {
    hide Chain.Inv, Chain.Served, Chain.Signed, Chain.SentBy, Chain.Noted, Chain.Touched, Stage.Valid;
    StageIs(chain, u);
    chain.Prepare(u, None);
    chain.Step(u, None, None, true, true);
    CrossSends(chain, u);
    assert chain.queues[u] == [][0..];
  }

  /** A LEFT JOIN that is finished, with a marked parent and an empty table, has not sent its join. */
  lemma MarkedIsLost(chain: Chain, s: nat, i: nat)
    requires chain.Inv() && s < |chain.stages| && s < |chain.joins| && chain.joins[s].isLeft
    requires chain.stages[s].childDone && chain.stages[s].childRows == []
    requires i < |chain.stages[s].ledger.stale| && chain.stages[s].ledger.stale[i]
    ensures chain.Emitted(s + 1) != multiset(NestedLoop(chain.joins[s], chain.stages[s].ledger.parents, []))
  {
    hide Aligned, Chain.Flow, Chain.QueueKeys, Chain.ParentKeys, Chain.Ahead, Chain.Shared, AllFaithful, Balanced,
         NestedLoop;
    assert chain.StageOk(s);
    FinishedIffUnmarked(chain.joins[s], chain.stages[s].ledger, []);
    assert Matches(chain.joins[s], chain.stages[s].ledger.parents[i], []) == [];
  }

  /** Wherever in a chain a LEFT JOIN stands directly behind a join without ON, and whatever row waits for
      the two, the first to get there: with two rows for the first and none for the second, this schedule
      loses a null row. The LEFT JOIN sends the first pair with its null row, which marks the row that the
      first join keeps, and the second pair is made from that. */
  method LosesNullRow(chain: Chain, u: nat, a: Row, b: Row)
    requires Pair(chain, u) && Unused(chain.stages[u]) && Unused(chain.stages[u + 1])
    requires |chain.queues[u]| == 1 && chain.queues[u + 1] == [] && u + 1 !in chain.queues[u][0].source
    modifies chain, chain.stages, chain.rows
    ensures Pair(chain, u) && chain.first == old(chain.first)
    ensures chain.queues[u] == [] && chain.stages[u].childDone && chain.stages[u].childRows == [a, b]
    ensures chain.queues[u + 1] == [] && chain.stages[u + 1].childDone && chain.stages[u + 1].childRows == []
    ensures chain.Emitted(u + 2) != multiset(NestedLoop(chain.joins[u + 1], chain.stages[u + 1].ledger.parents, []))
  {
    hide Chain.Inv, Chain.Served, NestedLoop;
    ghost var objects := chain.rows;
    var p := chain.queues[u][0];
    FirstPair(chain, u, p, a);
    PassLeft(chain, u, p);
    var copy := SecondPair(chain, u, p, a, b);
    PassLeft(chain, u, copy);
    EndCross(chain, u);
    MarkedIsLost(chain, u + 1, |chain.stages[u + 1].ledger.stale| - 1);
  }

  // ----- From the tables -----

  lemma {:induction false} FilterAll<T>(s: seq<T>)
    ensures Filter((x: T) => true, s) == s
  {
    if s != [] {
      FilterAll(s[..|s| - 1]);
    }
  }

  lemma ServedWithin(chain: Chain)
    requires chain.Served()
    ensures |chain.queues| == |chain.joins| + 1 && chain.served <= |chain.queues[|chain.joins|]|
  {
  }

  /** The one row of the first table waits, unmarked. */
  lemma FirstWaits(chain: Chain, row: Row)
    requires chain.Inv() && chain.first == [row] && |chain.stages| > 0 && chain.stages[0].ledger.parents == []
    ensures |chain.queues| > 0 && |chain.queues[0]| == 1 && 1 !in chain.queues[0][0].source
  {
    hide Aligned, Chain.StageOk, Chain.ParentKeys, Chain.Ahead, Chain.Shared, Chain.Flow;
    Waiting(chain, 0);
    assert chain.queues[0][0] in chain.queues[0];
    assert chain.QueueKeys(0);
    assert Within(chain.queues[0][0], 0);
  }

  lemma Wrong(chain: Chain, a: Row, b: Row)
    requires chain.Inv() && chain.Served() && |chain.joins| == |chain.stages| == 2 && |chain.queues| == 3
    requires chain.where == ((s: Source) => true) && chain.Drained(2)
    requires chain.served == |chain.queues[2]|
    requires chain.stages[0].childRows == [a, b] && chain.stages[1].childRows == []
    requires chain.Emitted(2) != multiset(NestedLoop(chain.joins[1], chain.stages[1].ledger.parents, []))
    ensures multiset(Sources(chain.results)) !=
            multiset(Filter(chain.where, JoinChain(chain.first, chain.joins, chain.Tables(2))))
  {
    hide Chain.Inv, NestedLoop, Filter, FirstRows;
    var joins, tables := chain.joins, chain.Tables(2);
    FilterAll(JoinChain(chain.first, joins, tables));
    FilterAll(Sources(chain.queues[2]));
    assert Sources(chain.queues[2])[..chain.served] == Sources(chain.queues[2]);
    Yields(chain);
    chain.StageAnswer(0);
    Delivered(chain, 1);
    var parents := JoinChain(chain.first, joins[..1], tables[..1]);
    assert joins[..1][..0] == [] && tables[..1][..0] == [] && JoinChain(chain.first, [], []) == FirstRows(chain.first);
    assert parents == NestedLoop(joins[0], FirstRows(chain.first), [a, b]);
    NestedLoopBag(joins[0], FirstRows(chain.first), chain.stages[0].ledger.parents, [a, b]);
    NestedLoopBag(joins[1], parents, chain.stages[1].ledger.parents, []);
  }

  /** With nothing waiting, all that was sent to a stage has been handed to it. */
  lemma Delivered(chain: Chain, s: nat)
    requires chain.Inv() && s < |chain.stages| && s < |chain.queues| && chain.queues[s] == []
    ensures chain.Emitted(s) == multiset(chain.stages[s].ledger.parents)
  {
    hide Aligned, Chain.StageOk, Chain.QueueKeys, Chain.ParentKeys, Chain.Ahead, Chain.Shared, FirstRows, Upto;
    assert chain.Flow(s);
    assert AllUpto(Sources([]), s + 1) == [];
  }

  /** What the chain yields is all that its last stage has sent. */
  lemma Yields(chain: Chain)
    requires chain.Inv()
    ensures |chain.stages| == |chain.joins| && |chain.queues| == |chain.joins| + 1
    ensures chain.Emitted(|chain.stages|) == multiset(Sources(chain.queues[|chain.joins|]))
  {
    hide Aligned, Chain.StageOk, Chain.QueueKeys, Chain.ParentKeys, Chain.Ahead, Chain.Shared, FirstRows, Upto;
    chain.YieldedWhole();
    assert chain.Flow(|chain.stages|);
  }

  /** For every FROM list of three tables that breaks the rule, every row of the first table and every two of
      the second, with the third empty: a run of the chain to its end whose result is not that of the
      nested loops. */
  method LosesNullRowFromTables(first: Join, second: Join, row: Row, a: Row, b: Row) returns (chain: Chain)
    requires Aligned([first, second]) && first.on.None? && second.isLeft
    ensures chain.joins == [first, second] && chain.where == (s => true)
    ensures |chain.stages| == 2 && |chain.queues| == 3
    ensures chain.first == [row] && chain.Tables(2) == [[a, b], []]
    ensures chain.Drained(2) && chain.served == |chain.queues[2]|
    ensures multiset(Sources(chain.results)) !=
            multiset(Filter(chain.where, JoinChain(chain.first, chain.joins, chain.Tables(2))))
  {
    hide Chain.Inv, Chain.Served, Aligned, NestedLoop, Filter, Chain.Tables;
    chain := OneRow(first, second, row);
    LosesNullRow(chain, 0, a, b);
    ServedWithin(chain);
    chain.Emit(|chain.queues[2]| - chain.served);
    TablesAre(chain, [a, b], []);
    Wrong(chain, a, b);
  }

  /** A chain that has read one row of its first table. */
  method OneRow(first: Join, second: Join, row: Row) returns (chain: Chain)
    requires Aligned([first, second]) && first.on.None? && second.isLeft
    ensures fresh(chain) && fresh(chain.stages) && fresh(chain.rows)
    ensures chain.joins == [first, second] && chain.where == (s => true) && chain.first == [row]
    ensures Pair(chain, 0) && Unused(chain.stages[0]) && Unused(chain.stages[1])
    ensures |chain.queues[0]| == 1 && chain.queues[1] == [] && 1 !in chain.queues[0][0].source
  {
    hide Chain.Inv, Chain.Served, Aligned;
    chain := new Chain([first, second], s => true);
    chain.SizesOf();
    chain.Feed([row]);
    chain.SizesOf();
    FirstWaits(chain, row);
  }

  lemma TablesAre(chain: Chain, first: seq<Row>, second: seq<Row>)
    requires |chain.stages| == 2 && chain.stages[0].childRows == first && chain.stages[1].childRows == second
    ensures chain.Tables(2) == [first, second]
  {
  }
}
