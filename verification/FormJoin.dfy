/** `formJoin` from its tables: as long as anything can happen, anything may, and the run ends with the answer. */
module FormJoin {
  import opened Common
  import opened JoinSpec
  import opened JoinStage
  import opened Pipeline

  /** The batches that the first table and the others yield. */
  datatype Input = Input(first: seq<seq<Row>>, others: seq<seq<seq<Row>>>)

  function Whole(others: seq<seq<seq<Row>>>): seq<seq<Row>> {
    seq(|others|, s requires 0 <= s < |others| => Flatten(others[s]))
  }

  // ----- How many rows can ever reach a stage -----

  lemma {:induction false} MatchesAtMost(j: Join, p: Source, children: seq<Row>)
    ensures |Matches(j, p, children)| <= |children|
  {
    if children != [] {
      MatchesAtMost(j, p, children[..|children| - 1]);
    }
  }

  lemma {:induction false} MatchedAtMost(j: Join, parents: seq<Source>, children: seq<Row>, seen: seq<nat>)
    requires |seen| == |parents| && forall i :: 0 <= i < |seen| ==> seen[i] <= |children|
    ensures |MatchedSoFar(j, parents, children, seen)| <= |parents| * |children|
  {
    hide Matches;
    if parents != [] {
      hide MatchedSoFar;
      var n := |parents| - 1;
      MatchedAtMost(j, parents[..n], children, seen[..n]);
      MatchesAtMost(j, parents[n], children[..seen[n]]);
      MatchedLast(j, parents, children, seen);
      OneMoreTimes(n, |children|);
    }
  }

  lemma OneMoreTimes(n: nat, k: nat)
    ensures (n + 1) * k == n * k + k
  {
  }

  lemma {:induction false} NullRowsAtMost(j: Join, parents: seq<Source>, children: seq<Row>, stale: seq<bool>)
    requires |stale| == |parents|
    ensures |NullRows(j, parents, children, stale)| <= |parents|
  {
    hide Matches;
    if parents != [] {
      NullRowsAtMost(j, parents[..|parents| - 1], children, stale[..|parents| - 1]);
    }
  }

  /** A row is sent at most once for each child, and once with a null row. */
  lemma EmittedAtMost(stage: Stage)
    requires stage.Valid()
    ensures |stage.ledger.emitted| <= |stage.ledger.parents| * (|stage.childRows| + 1)
  {
    hide MatchedSoFar, NullRows, AllFaithful, Matches;
    var l, j, children := stage.ledger, stage.join, stage.childRows;
    MatchedAtMost(j, l.parents, children, l.seen);
    NullRowsAtMost(j, l.parents[..l.settled], children, l.stale[..l.settled]);
    OneMoreTimes(|children|, |l.parents|);
  }

  /** The most rows that can ever reach stage `s`. */
  ghost function Room(input: Input, s: nat): nat
    requires s <= |input.others|
  {
    if s == 0 then |Flatten(input.first)| else Room(input, s - 1) * (|Flatten(input.others[s - 1])| + 1)
  }

  /** `left` is what has not been read yet. */
  ghost predicate Reading(chain: Chain, left: Input, input: Input)
    reads chain, chain.stages
  {
    && |chain.stages| == |left.others| == |input.others|
    && Flatten(input.first) == chain.first + Flatten(left.first)
    && forall s :: 0 <= s < |chain.stages| ==> TableRead(chain.stages[s], left.others[s], input.others[s])
  }

  ghost predicate TableRead(stage: Stage, left: seq<seq<Row>>, table: seq<seq<Row>>)
    reads stage
  {
    Flatten(table) == stage.childRows + Flatten(left) && (stage.childDone ==> left == [])
  }

  lemma {:induction false} EmittedFits(chain: Chain, left: Input, input: Input, s: nat)
    requires chain.Inv() && Reading(chain, left, input) && s <= |chain.stages|
    ensures |chain.Emitted(s)| <= Room(input, s)
    decreases s, 0
  {
    hide Chain.Inv, Stage.Valid, Flatten;
    if s > 0 {
      var stage := chain.stages[s - 1];
      HandedFits(chain, left, input, s - 1);
      ValidStage(chain, s - 1);
      EmittedAtMost(stage);
      assert TableRead(stage, left.others[s - 1], input.others[s - 1]);
      TimesMost(|stage.ledger.parents|, Room(input, s - 1), |stage.childRows| + 1, |Flatten(input.others[s - 1])| + 1);
    }
  }

  lemma ValidStage(chain: Chain, s: nat)
    requires chain.Inv() && s < |chain.stages|
    ensures chain.stages[s].Valid()
  {
    hide Aligned, Chain.Flow, Chain.QueueKeys, Chain.ParentKeys, Chain.Ahead, Chain.Shared;
    assert chain.StageOk(s);
  }

  lemma TimesMost(a: nat, a': nat, b: nat, b': nat)
    requires a <= a' && b <= b'
    ensures a * b <= a' * b'
  {
    assert a' * b' == a * b + (a' - a) * b' + a * (b' - b);
  }

  /** Every row sent to a stage is waiting for it or was handed to it. */
  lemma {:induction false} HandedFits(chain: Chain, left: Input, input: Input, s: nat)
    requires chain.Inv() && Reading(chain, left, input) && s <= |chain.stages|
    ensures |chain.queues| == |chain.stages| + 1
    ensures (if s < |chain.stages| then |chain.stages[s].ledger.parents| else 0) + |chain.queues[s]| <= Room(input, s)
    decreases s, 1
  {
    hide Aligned, Chain.StageOk, Chain.QueueKeys, Chain.ParentKeys, Chain.Ahead, Chain.Shared, Room, FirstRows, Upto;
    EmittedFits(chain, left, input, s);
    assert chain.Flow(s);
  }

  // ----- What is left to do -----

  ghost function StageWork(stage: Stage, left: seq<seq<Row>>, room: nat): int
    reads stage
  {
    room - |stage.ledger.parents| + |left| + (if stage.childDone then 0 else 1)
  }

  ghost function StageWorks(chain: Chain, left: Input, input: Input): seq<int>
    requires |chain.stages| == |left.others| == |input.others|
    reads chain, chain.stages
  {
    seq(|chain.stages|, s requires 0 <= s < |chain.stages| reads chain.stages =>
      StageWork(chain.stages[s], left.others[s], Room(input, s)))
  }

  ghost function Sum(s: seq<int>): int {
    if s == [] then 0 else Sum(s[..|s| - 1]) + s[|s| - 1]
  }

  lemma {:induction false} SumUpdate(s: seq<int>, i: nat, v: int)
    requires i < |s|
    ensures Sum(s[i := v]) == Sum(s) - s[i] + v
  {
    var n := |s| - 1;
    if i < n {
      SumUpdate(s[..n], i, v);
      assert s[i := v][..n] == s[..n][i := v];
    } else {
      assert s[i := v][..n] == s[..n];
    }
  }

  lemma {:induction false} SumNotNegative(s: seq<int>)
    requires forall i :: 0 <= i < |s| ==> s[i] >= 0
    ensures Sum(s) >= 0
  {
    if s != [] {
      SumNotNegative(s[..|s| - 1]);
    }
  }

  /** Batches to read, sides to finish, rows to hand over, and rows to serve. */
  ghost function Work(chain: Chain, left: Input, input: Input): int
    requires |chain.stages| == |left.others| == |input.others|
    reads chain, chain.stages
  {
    |left.first| + Sum(StageWorks(chain, left, input)) + Room(input, |chain.stages|) - chain.served
  }

  lemma WorkNotNegative(chain: Chain, left: Input, input: Input)
    requires chain.Inv() && chain.Served() && Reading(chain, left, input)
    ensures Work(chain, left, input) >= 0
  {
    var works := StageWorks(chain, left, input);
    forall s | 0 <= s < |works|
      ensures works[s] >= 0
    {
      HandedFits(chain, left, input, s);
    }
    SumNotNegative(works);
    HandedFits(chain, left, input, |chain.stages|);
  }

  // ----- What can happen -----

  /** The first table yields its next batch. */
  method Read(chain: Chain, left: Input, ghost input: Input) returns (left': Input)
    requires chain.Inv() && chain.Served() && Reading(chain, left, input) && left.first != []
    modifies chain
    ensures chain.Inv() && chain.Served() && Reading(chain, left', input) && fresh(chain.rows - old(chain.rows))
    ensures Work(chain, left', input) < old(Work(chain, left, input))
  {
    hide Chain.Inv, Chain.Served, Room;
    chain.Feed(left.first[0]);
    left' := left.(first := left.first[1..]);
    assert StageWorks(chain, left', input) == old(StageWorks(chain, left, input));
  }

  /** One callback: some waiting rows, or the next result of the stage's own table, or both. */
  method Call(chain: Chain, s: nat, take: nat, next: bool, parentDone: bool, left: Input, ghost input: Input)
    returns (left': Input)
    requires chain.Inv() && chain.Served() && Reading(chain, left, input)
    requires |chain.queues| == |chain.stages| + 1 && CanCall(chain, s, take, next)
    modifies chain, chain.stages, chain.rows
    ensures chain.Inv() && chain.Served() && Reading(chain, left', input) && fresh(chain.rows - old(chain.rows))
    ensures Work(chain, left', input) < old(Work(chain, left, input))
  {
    hide Chain.Inv, Chain.Served, Room, TableRead, StageWorks, Flatten, Chain.Moved;
    var batches, stage := left.others[s], chain.stages[s];
    var children := if next && batches != [] then Some(batches[0]) else None;
    var childDone := stage.childDone || (next && batches == []);
    var rest := if children.Some? then batches[1..] else batches;
    ghost var works := StageWorks(chain, left, input);
    StageAt(chain, left, input, s);
    FlattenNext(batches);
    var taken := if take > 0 then Some(take) else None;
    chain.Prepare(s, taken);
    chain.Step(s, taken, children, parentDone, childDone);
    left' := left.(others := left.others[s := rest]);
    OnlyStage(chain, s, left, rest, input);
    SumUpdate(works, s, StageWork(stage, rest, Room(input, s)));
  }

  lemma StageAt(chain: Chain, left: Input, input: Input, s: nat)
    requires Reading(chain, left, input) && s < |chain.stages|
    ensures chain.stages[s].childDone ==> left.others[s] == []
    ensures
      var works := StageWorks(chain, left, input);
      |works| == |chain.stages| && works[s] == StageWork(chain.stages[s], left.others[s], Room(input, s))
  {
    hide Flatten, Room;
    assert TableRead(chain.stages[s], left.others[s], input.others[s]);
  }

  lemma FlattenNext<T>(batches: seq<seq<T>>)
    ensures batches != [] ==> Flatten(batches) == batches[0] + Flatten(batches[1..])
  {
  }

  /** Only stage `s` moves on in its table, and only its work changes. */
  twostate lemma OnlyStage(chain: Chain, new s: nat, new left: Input, new rest: seq<seq<Row>>, new input: Input)
    requires old(Reading(chain, left, input)) && s < |chain.stages| && chain.first == old(chain.first)
    requires forall t :: 0 <= t < |chain.stages| && t != s ==>
               && chain.stages[t].childRows == old(chain.stages[t].childRows)
               && chain.stages[t].childDone == old(chain.stages[t].childDone)
               && |chain.stages[t].ledger.parents| == |old(chain.stages[t].ledger.parents)|
    requires chain.stages[s].childRows + Flatten(rest) == old(chain.stages[s].childRows) + Flatten(left.others[s])
    requires chain.stages[s].childDone ==> rest == []
    ensures
      var left' := left.(others := left.others[s := rest]);
      && Reading(chain, left', input)
      && StageWorks(chain, left', input) ==
         old(StageWorks(chain, left, input))[s := StageWork(chain.stages[s], rest, Room(input, s))]
  {
    hide Flatten, Room;
    var left' := left.(others := left.others[s := rest]);
    forall t | 0 <= t < |chain.stages|
      ensures TableRead(chain.stages[t], left'.others[t], input.others[t])
    {
      assert old(TableRead(chain.stages[t], left.others[t], input.others[t]));
    }
  }

  /** Some rows pass WHERE. */
  method Serve(chain: Chain, count: nat, ghost left: Input, ghost input: Input)
    requires chain.Inv() && chain.Served() && Reading(chain, left, input)
    requires |chain.queues| == |chain.stages| + 1 && CanServe(chain, count)
    modifies chain
    ensures chain.Inv() && chain.Served() && Reading(chain, left, input) && chain.rows == old(chain.rows)
    ensures Work(chain, left, input) < old(Work(chain, left, input))
  {
    hide Chain.Inv, Chain.Served, Room;
    chain.SizesOf();
    chain.Emit(count);
    assert StageWorks(chain, left, input) == old(StageWorks(chain, left, input));
  }

  predicate CanCall(chain: Chain, s: nat, take: nat, next: bool)
    requires |chain.queues| == |chain.stages| + 1
    reads chain, chain.stages
  {
    && s < |chain.stages| && take <= |chain.queues[s]|
    && (take > 0 || next) && (next ==> !chain.stages[s].childDone)
  }

  predicate CanServe(chain: Chain, count: nat)
    requires |chain.queues| == |chain.stages| + 1
    reads chain
  {
    0 < count && chain.served + count <= |chain.queues[|chain.stages|]|
  }

  /** Something can happen. */
  predicate Busy(chain: Chain, left: Input)
    requires |chain.queues| == |chain.stages| + 1
    reads chain, chain.stages
  {
    || left.first != []
    || (exists s :: 0 <= s < |chain.stages| && (chain.queues[s] != [] || !chain.stages[s].childDone))
    || chain.served < |chain.queues[|chain.stages|]|
  }

  /** The whole FROM clause with its WHERE. What happens next is up to the environment, as long as anything
      can: the first table may yield a batch, any stage may take rows or the next result of its own table,
      and rows may be served. Every run ends, and the rows served are those of the nested loops. */
  method FormJoin(joins: seq<Join>, where: Source -> bool, input: Input) returns (results: seq<Source>)
    requires Sound(joins) && |input.others| == |joins|
    ensures multiset(results) == multiset(Filter(where, JoinChain(Flatten(input.first), joins, Whole(input.others))))
  {
    hide Chain.Inv, Chain.Served, Sound, Aligned, Busy, CanCall, CanServe, Work;
    SoundIsAligned(joins);
    var chain := new Chain(joins, where);
    var left := input;
    chain.SizesOf();
    assert Reading(chain, left, input) by {
      NothingRead(chain, input);
    }
    while Busy(chain, left)
      invariant chain.joins == joins && chain.where == where && chain.Inv() && chain.Served()
      invariant fresh(chain) && fresh(chain.stages) && fresh(chain.rows)
      invariant |chain.stages| == |joins| && |chain.queues| == |joins| + 1
      invariant Reading(chain, left, input)
      decreases Work(chain, left, input)
    {
      WorkNotNegative(chain, left, input);
      SomethingOpen(chain, left);
      if {
      case left.first != [] =>
        left := Read(chain, left, input);
      case s: nat, take: nat, next: bool :| s < |joins| && take <= |chain.queues[s]| && CanCall(chain, s, take, next) =>
        var parentDone: bool := *;
        left := Call(chain, s, take, next, parentDone, left, input);
      case count: nat :| count <= |chain.queues[|joins|]| && CanServe(chain, count) =>
        Serve(chain, count, left, input);
      }
      chain.SizesOf();
    }
    AllRead(chain, left, input);
    chain.Complete();
    results := Sources(chain.results);
  }

  lemma NothingRead(chain: Chain, input: Input)
    requires |chain.stages| == |input.others| && chain.first == []
    requires forall s :: 0 <= s < |chain.stages| ==> chain.stages[s].childRows == [] && !chain.stages[s].childDone
    ensures Reading(chain, input, input)
  {
  }

  lemma AllRead(chain: Chain, left: Input, input: Input)
    requires chain.Served() && Reading(chain, left, input) && |chain.queues| == |chain.stages| + 1 && !Busy(chain, left)
    ensures chain.first == Flatten(input.first) && chain.Tables(|chain.stages|) == Whole(input.others)
    ensures chain.Drained(|chain.stages|) && chain.served == |chain.queues[|chain.stages|]|
  {
    forall s | 0 <= s < |chain.stages|
      ensures chain.stages[s].childRows == Flatten(input.others[s]) && chain.queues[s] == [] &&
              chain.stages[s].childDone
    {
      assert TableRead(chain.stages[s], left.others[s], input.others[s]);
    }
    assert chain.Tables(|chain.stages|) == Whole(input.others);
  }

  /** As long as something can happen, some guard is open. */
  lemma SomethingOpen(chain: Chain, left: Input)
    requires |chain.queues| == |chain.stages| + 1 && Busy(chain, left)
    ensures
      || left.first != []
      || (exists s: nat, take: nat, next: bool ::
            s < |chain.stages| && take <= |chain.queues[s]| && CanCall(chain, s, take, next))
      || (exists count: nat :: count <= |chain.queues[|chain.stages|]| && CanServe(chain, count))
  {
    if s: nat :| s < |chain.stages| && (chain.queues[s] != [] || !chain.stages[s].childDone) {
      assert CanCall(chain, s, |chain.queues[s]|, !chain.stages[s].childDone);
    } else if chain.served < |chain.queues[|chain.stages|]| {
      assert CanServe(chain, 1);
    }
  }
}
