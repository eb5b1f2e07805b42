/** `formJoin`: a chain of streaming joins over one FROM list, stepped in any order. */
module Pipeline {
  import opened Common
  import opened JoinSpec
  import opened JoinStage
  import FilterInPlace

  predicate Inner(j: Join) {
    !j.isLeft && j.on.Some?
  }

  /** The last table a row waiting at stage `s` can be marked for while it is still the same object:
      an inner join with an ON clause hands on new rows only. */
  function Bound(joins: seq<Join>, s: nat): nat
    decreases |joins| - s
  {
    if s >= |joins| then |joins| else if Inner(joins[s]) then s + 1 else Bound(joins, s + 1)
  }

  /** Rows reach stage `s` without marks for its own or any later table: no join without ON has handed
      them on since the last inner join with an ON clause. */
  predicate Clean(joins: seq<Join>, s: nat)
    requires s <= |joins|
  {
    s == 0 || Inner(joins[s - 1]) || (joins[s - 1].isLeft && joins[s - 1].on.Some? && Clean(joins, s - 1))
  }

  /** Every table after the first is joined in its place, by an ON clause about the tables so far. */
  ghost predicate Aligned(joins: seq<Join>) {
    forall s :: 0 <= s < |joins| ==> joins[s].from == s + 1 && Scoped(joins[s])
  }

  lemma AlignedAt(joins: seq<Join>, s: nat)
    requires Aligned(joins) && s < |joins|
    ensures joins[s].from == s + 1 && Scoped(joins[s])
  {
  }

  /** The FROM lists the chain is right for: no LEFT JOIN stands directly behind a join without ON. */
  ghost predicate Sound(joins: seq<Join>) {
    Aligned(joins) && forall s :: 0 < s < |joins| && joins[s].isLeft ==> joins[s - 1].on.Some?
  }

  lemma SoundIsAligned(joins: seq<Join>)
    requires Sound(joins)
    ensures Aligned(joins)
  {
  }

  lemma {:induction false} SoundAt(joins: seq<Join>, s: nat)
    requires Sound(joins) && s < |joins| && joins[s].isLeft
    ensures Clean(joins, s)
  {
    if s > 0 && joins[s - 1].isLeft {
      SoundAt(joins, s - 1);
    }
  }

  /** That is exactly when the rows reaching every LEFT JOIN are clean. */
  lemma {:induction false} CleanIff(joins: seq<Join>)
    ensures (forall s :: 0 <= s < |joins| && joins[s].isLeft ==> Clean(joins, s)) <==>
            (forall s :: 0 < s < |joins| && joins[s].isLeft ==> joins[s - 1].on.Some?)
  {
    if forall s :: 0 < s < |joins| && joins[s].isLeft ==> joins[s - 1].on.Some? {
      for s := 0 to |joins|
        invariant forall t :: 0 <= t < s && joins[t].isLeft ==> Clean(joins, t)
      {
      }
    }
  }

  function QueueBound(joins: seq<Join>, s: nat): nat
    requires s <= |joins|
  {
    if Clean(joins, s) then s else Bound(joins, s)
  }

  function ParentBound(joins: seq<Join>, s: nat): nat
    requires s < |joins|
  {
    QueueBound(joins, s + 1)
  }

  lemma Bounds(joins: seq<Join>, s: nat)
    requires s < |joins|
    ensures s < Bound(joins, s) <= |joins|
    ensures !Inner(joins[s]) ==> Bound(joins, s) == Bound(joins, s + 1)
    ensures s + 1 <= ParentBound(joins, s) && QueueBound(joins, s) <= ParentBound(joins, s)
    ensures ParentBound(joins, s) == QueueBound(joins, s + 1)
    ensures joins[s].on.None? ==> ParentBound(joins, s) == Bound(joins, s)
    decreases |joins| - s
  {
    BoundRange(joins, s);
    BoundRange(joins, s + 1);
  }

  lemma {:induction false} BoundRange(joins: seq<Join>, s: nat)
    requires s <= |joins|
    ensures s <= Bound(joins, s) <= |joins| && (s < |joins| ==> s < Bound(joins, s))
    decreases |joins| - s
  {
    if s < |joins| {
      BoundRange(joins, s + 1);
    }
  }

  ghost predicate Within(row: SourceRow, bound: nat)
    reads row
  {
    forall k :: k in row.source ==> k <= bound
  }

  lemma DistinctSplit<T>(q: seq<T>, n: nat)
    requires Distinct(q) && n <= |q|
    ensures Distinct(q[n..]) && forall r :: r in q[..n] ==> r !in q[n..]
  {
  }

  lemma OtherEntry(a: Source, b: Source, from: nat, k: nat)
    requires Others(a, from) == Others(b, from) && k != from
    ensures k in a <==> k in b
  {
    assert k in a <==> k in Others(a, from);
    assert k in b <==> k in Others(b, from);
  }

  /** A ledger only looks at a row's entries up to the joined table. */
  lemma AgreesSame(j: Join, l: Ledger, children: seq<Row>, rows: seq<Source>, rows': seq<Source>)
    requires Agrees(j, l, children, rows) && |rows'| == |rows|
    requires forall i :: 0 <= i < |rows| ==> SameView(j, rows[i], rows'[i])
    ensures Agrees(j, l, children, rows')
  {
    hide Matches, MatchedSoFar, NullRows;
    forall i: nat {:trigger rows'[i]} | i < |rows'|
      ensures Faithful(j, l, children, l.settled + i, rows'[i])
    {
      assert SameView(j, rows[i], rows'[i]);
      assert Faithful(j, l, children, l.settled + i, rows[i]);
    }
  }

  ghost predicate SameView(j: Join, a: Source, b: Source) {
    Upto(a, j.from) == Upto(b, j.from) && (j.from in a <==> j.from in b)
  }

  lemma SameViewElsewhere(j: Join, a: Source, b: Source, from: nat)
    requires Others(a, from) == Others(b, from) && j.from < from
    ensures SameView(j, a, b)
  {
    UptoElsewhere(a, b, from, j.from);
    OtherEntry(a, b, from, j.from);
  }

  lemma UptoElsewhere(a: Source, b: Source, from: nat, n: nat)
    requires Others(a, from) == Others(b, from) && n <= from
    ensures Upto(a, n) == Upto(b, n)
  {
    forall k: nat | k < n
      ensures (k in a <==> k in b) && (k in a ==> a[k] == b[k])
    {
      OtherEntry(a, b, from, k);
      assert k in a ==> Others(a, from)[k] == a[k] && Others(b, from)[k] == b[k];
    }
  }

  lemma ViewsConcat(a: seq<SourceRow>, b: seq<SourceRow>, n: nat)
    ensures multiset(AllUpto(Sources(a + b), n)) == multiset(AllUpto(Sources(a), n)) + multiset(AllUpto(Sources(b), n))
  {
    assert AllUpto(Sources(a + b), n) == AllUpto(Sources(a), n) + AllUpto(Sources(b), n);
  }

  lemma ArrivedIs(stage: Stage, l: Ledger, l': Ledger, sources: seq<Source>)
    requires stage.Arrived(l, l', sources)
    ensures l'.parents == l.parents + AllUpto(sources, stage.join.from)
    ensures l'.stale == l.stale + Flags(stage.join, sources)
  {
  }

  lemma ShownIs(stage: Stage, outputs: seq<SourceRow>)
    ensures stage.Shown(outputs) == AllUpto(Sources(outputs), stage.join.from + 1)
  {
  }

  lemma TakenViews(q: seq<SourceRow>, was: seq<Source>, n: nat, k: nat)
    requires n <= |q| == |was| && AllUpto(Sources(q), k) == AllUpto(was, k)
    ensures multiset(AllUpto(was, k)) == multiset(AllUpto(was[..n], k)) + multiset(AllUpto(Sources(q[n..]), k))
  {
    var shown := AllUpto(was, k);
    assert AllUpto(was[..n], k) == shown[..n];
    assert AllUpto(Sources(q[n..]), k) == shown[n..];
    assert shown == shown[..n] + shown[n..];
  }

  class Chain {
    const joins: seq<Join>
    const stages: seq<Stage>
    // queues[s] waits for stage s; the last queue holds everything the chain has yielded.
    var queues: seq<seq<SourceRow>>

    const where: Source -> bool
    // The rows that passed WHERE, out of the first `served` of the last queue.
    var results: seq<SourceRow>
    var served: nat

    // All rows of the first table read so far, and all row objects there are.
    ghost var first: seq<Row>
    ghost var rows: set<SourceRow>
    // The step under way: what its callback may touch, was handed, and sent.
    ghost var known: set<SourceRow>
    ghost var batch: seq<SourceRow>
    ghost var outputs: seq<SourceRow>

    constructor (joins: seq<Join>, where: Source -> bool)
      requires Aligned(joins)
      ensures this.joins == joins && this.where == where && fresh(stages) && Inv() && Served()
      ensures rows == {} && first == [] && served == 0 && queues == seq(|joins| + 1, _ => [])
      ensures forall s :: 0 <= s < |stages| ==> NewStage(stages[s], joins[s])
    {
      hide Aligned;
      var built := BuildStages(joins);
      this.joins, this.where, stages := joins, where, built;
      queues := seq(|joins| + 1, _ => []);
      results, served, first, rows, known, batch, outputs := [], 0, [], {}, {}, [], [];
      new;
      NothingYet();
    }

    static method BuildStages(joins: seq<Join>) returns (built: seq<Stage>)
      ensures |built| == |joins| && forall t :: 0 <= t < |joins| ==> fresh(built[t]) && NewStage(built[t], joins[t])
      ensures forall t, u :: 0 <= t < u < |joins| ==> built[t] != built[u]
    {
      built := [];
      for s := 0 to |joins|
        invariant |built| == s && forall t :: 0 <= t < s ==> fresh(built[t]) && NewStage(built[t], joins[t])
        invariant forall t, u :: 0 <= t < u < s ==> built[t] != built[u]
      {
        var stage := new Stage(joins[s]);
        built := built + [stage];
      }
    }

    static ghost predicate NewStage(stage: Stage, join: Join)
      reads stage, stage.parentRows
    {
      && stage.join == join && stage.Valid() && stage.parentRows == []
      && stage.childRows == [] && !stage.childDone && stage.ledger == Ledger([], [], [], 0, multiset{})
    }

    lemma NothingYet()
      requires Aligned(joins) && |stages| == |joins| && first == [] && rows == {} && queues == seq(|joins| + 1, _ => [])
      requires forall t :: 0 <= t < |stages| ==> NewStage(stages[t], joins[t])
      requires forall t, u :: 0 <= t < u < |stages| ==> stages[t] != stages[u]
      ensures Inv()
    {
      hide Aligned, Stage.Valid, Bound, QueueBound, ParentBound;
      assert FirstRows([]) == [];
      forall s | 0 <= s < |queues|
        ensures Flow(s)
      {
        assert AllUpto(Sources(queues[s]), s + 1) == [];
      }
    }

    ghost predicate Shape()
      reads `queues, `rows, stages
    {
      && Aligned(joins) && |stages| == |joins| && |queues| == |joins| + 1
      && (forall s :: 0 <= s < |stages| ==> stages[s].join == joins[s])
      && (forall s, t :: 0 <= s < t < |stages| ==> stages[s] != stages[t])
      && (forall s, r :: 0 <= s < |stages| && r in stages[s].parentRows ==> r in rows)
      && (forall s, r :: 0 <= s < |queues| && r in queues[s] ==> r in rows)
    }

    /** Stage `s` works, and finds no row marked that it did not mark itself when that matters. */
    ghost predicate StageOk(s: nat)
      requires s < |stages|
      reads `rows, stages, rows
    {
      && (forall r :: r in stages[s].parentRows ==> r in rows)
      && stages[s].Valid()
      && stages[s].ledger.settled ==
         (if stages[s].join.isLeft && stages[s].childDone then |stages[s].ledger.parents| else 0)
      && (s < |joins| && Clean(joins, s) ==>
            forall i :: 0 <= i < |stages[s].ledger.stale| ==> !stages[s].ledger.stale[i])
    }

    /** What stage `s` is fed from. */
    ghost function Emitted(s: nat): multiset<Source>
      requires s <= |stages|
      reads `first, stages
    {
      if s == 0 then multiset(FirstRows(first)) else stages[s - 1].ledger.emitted
    }

    /** Nothing sent upstream is lost or doubled: it was delivered to stage `s` or is waiting for it. */
    ghost predicate Flow(s: nat)
      requires s <= |stages| && |queues| == |stages| + 1
      reads `queues, `first, `rows, stages, rows
      requires forall r :: r in queues[s] ==> r in rows
    {
      Emitted(s) == (if s < |stages| then multiset(stages[s].ledger.parents) else multiset{}) +
                    multiset(AllUpto(Sources(queues[s]), s + 1))
    }

    /** Row objects at or before the input of stage `t`. */
    ghost predicate At(t: nat, r: SourceRow)
      requires t < |queues| && |queues| == |stages| + 1
      reads `queues, stages
    {
      r in queues[t] || (t < |stages| && r in stages[t].parentRows)
    }

    /** A waiting row has not been anywhere further down. */
    ghost predicate Ahead(s: nat, t: nat)
      requires s <= t < |queues| && |queues| == |stages| + 1
      reads `queues, stages
    {
      && Distinct(queues[s])
      && (s < t ==> forall r :: r in queues[s] ==> r !in queues[t])
      && (t < |stages| ==> forall r :: r in queues[s] ==> r !in stages[t].parentRows)
    }

    /** A row that stage `u` kept and handed on: only a join without ON does that, and never writes it again. */
    ghost predicate Shared(u: nat, t: nat)
      requires u < t < |queues| && |queues| == |stages| + 1 && u < |joins|
      reads `queues, `rows, stages, rows
    {
      forall r :: r in rows && r in stages[u].parentRows && At(t, r) ==>
        joins[u].on.None? && u + 1 in r.source && Bound(joins, u) == Bound(joins, t)
    }

    ghost predicate QueueKeys(s: nat)
      requires s < |queues| && s <= |joins|
      reads `queues, `rows, rows
    {
      forall r :: r in rows && r in queues[s] ==> Within(r, QueueBound(joins, s))
    }

    ghost predicate ParentKeys(s: nat)
      requires s < |stages| && s < |joins|
      reads `rows, stages, rows
    {
      forall r :: r in rows && r in stages[s].parentRows ==> Within(r, ParentBound(joins, s))
    }

    ghost predicate Inv()
      reads `queues, `first, `rows, stages, rows
    {
      && Shape()
      && (forall s :: 0 <= s < |stages| ==> StageOk(s) && ParentKeys(s))
      && (forall s :: 0 <= s < |queues| ==> Flow(s) && QueueKeys(s))
      && (forall s, t :: 0 <= s <= t < |queues| ==> Ahead(s, t))
      && (forall u, t :: 0 <= u < t < |queues| ==> Shared(u, t))
    }

    // ----- One step: stage `s` takes `n` waiting rows and runs its callback -----

    twostate predicate Stepped(s: nat, n: nat)
      reads this, stages, rows
    {
      && Shape() && s < |stages| && |old(queues)| == |queues| && n <= |old(queues)[s]|
      && batch == old(batch) == old(queues)[s][..n]
      && queues == old(queues)[s := old(queues)[s][n..]][s + 1 := old(queues)[s + 1] + outputs]
      && first == old(first) && rows == old(rows) + (set o | o in outputs)
      && (forall t :: 0 <= t < |stages| && t != s ==>
            && stages[t].parentRows == old(stages[t].parentRows)
            && stages[t].childRows == old(stages[t].childRows)
            && stages[t].ledger == old(stages[t].ledger)
            && stages[t].childDone == old(stages[t].childDone))
      && stages[s].parentRows ==
         (if joins[s].isLeft && stages[s].childDone then [] else old(stages[s].parentRows) + batch)
      && known <= old(rows)
      && (forall r :: r in old(rows) ==> (r in known <==> r in old(stages[s].parentRows) || r in batch))
      && Touched(s) && SentBy(s)
    }

    /** Only rows of `known` change, at the entry for table `s + 1`. */
    twostate predicate Touched(s: nat)
      requires s < |joins|
      reads `rows, `known, rows
    {
      && (forall r :: r in rows && r in old(rows) && r !in known ==> r.source == old(r.source))
      && (forall r :: r in rows && r in old(rows) && r in known ==>
            && Others(r.source, s + 1) == Others(old(r.source), s + 1)
            && (s + 1 in old(r.source) ==> s + 1 in r.source)
            && (joins[s].on.None? && s + 1 in old(r.source) ==> r.source == old(r.source)))
    }

    twostate predicate SentBy(s: nat)
      requires s < |joins| && s < |stages|
      reads `outputs, `rows, `known, stages, rows
    {
      && Distinct(outputs)
      && (forall o :: o in outputs ==> o in rows && s + 1 in o.source)
      && (forall o :: o in outputs && o in rows ==>
            exists r :: r in known && r in old(rows) && Others(o.source, s + 1) == Others(old(r.source), s + 1))
      && (forall o :: o in outputs ==>
            || o !in old(rows)
            || (o in known && !Inner(joins[s]) && s + 1 !in old(o.source)))
      && (joins[s].on.Some? ==> forall o :: o in outputs ==> o !in stages[s].parentRows)
    }

    /** A join without ON sends the rows it marks, and a LEFT JOIN whose children are done marks all it has. */
    twostate predicate Signed(s: nat)
      requires s < |joins| && s < |stages|
      reads `outputs, `rows, `known, stages, rows
    {
      && (joins[s].on.None? ==>
            forall r :: r in known && r in rows && r in old(rows) && s + 1 in r.source && s + 1 !in old(r.source) ==>
              r in outputs)
      && (joins[s].isLeft && stages[s].childDone ==> forall r :: r in known && r in rows ==> s + 1 in r.source)
    }

    /** What a step does to the queues and rows around stage `s`. */
    twostate predicate Moved(s: nat, n: nat)
      reads this, stages, rows
    {
      && s < |stages| == |joins| && |old(queues)| == |queues| == |joins| + 1 && n <= |old(queues)[s]|
      && queues == old(queues)[s := old(queues)[s][n..]][s + 1 := old(queues)[s + 1] + outputs]
      && (forall t :: 0 <= t < |stages| && t != s ==>
            stages[t].parentRows == old(stages[t].parentRows) && stages[t].ledger == old(stages[t].ledger))
      && stages[s].parentRows ==
         (if joins[s].isLeft && stages[s].childDone then [] else old(stages[s].parentRows) + old(queues)[s][..n])
      && old(rows) <= rows
      && (forall r :: r in old(rows) ==> (r in known <==> r in old(stages[s].parentRows) || r in old(queues)[s][..n]))
      && Touched(s) && SentBy(s) && Signed(s) && Noted(s, n)
    }

    /** The stage has noted which of the rows it took were marked. */
    twostate predicate Noted(s: nat, n: nat)
      requires s < |stages| && s < |old(queues)| && n <= |old(queues)[s]|
      reads `queues, `rows, stages, rows
    {
      var before, after := old(stages[s].ledger.stale), stages[s].ledger.stale;
      && |after| == |before| + n && before <= after
      && forall i :: 0 <= i < n && old(queues)[s][i] in old(rows) ==>
           (after[|before| + i] <==> s + 1 in old(queues[s][i].source))
    }

    /** Nothing further down the chain changes. */
    twostate lemma DownstreamKept(s: nat, new n: nat, new t: nat)
      requires old(Inv()) && Stepped(s, n) && s < t < |queues|
      ensures forall r :: r in old(rows) && old(At(t, r)) ==> r.source == old(r.source)
    {
      forall r | r in old(rows) && old(At(t, r))
        ensures r.source == old(r.source)
      {
        if r in known {
          assert old(Ahead(s, t));
          assert old(Shared(s, t));
        }
      }
    }

    /** A sent row that is not new was kept or waiting at stage `s`, and is nowhere further down. */
    twostate lemma SentWasHere(s: nat, new n: nat, new t: nat)
      requires old(Inv()) && Stepped(s, n) && s < t < |queues|
      ensures forall r :: r in outputs && r in old(rows) ==>
                && old(At(s, r)) && !old(At(t, r)) && !Inner(joins[s]) && r in known
                && Bound(joins, s) == Bound(joins, s + 1)
    {
      Bounds(joins, s);
      assert old(Ahead(s, t));
      assert old(Shared(s, t));
    }

    twostate lemma SharedNext(s: nat, new n: nat, new u: nat, new t: nat)
      requires old(Inv()) && Stepped(s, n) && u < t < |queues|
      ensures Shared(u, t)
    {
      hide *;
      ShapeKept(s, n);
      if u < s {
        SharedUpstream(s, n, u, t);
      } else if u == s {
        SharedHere(s, n, t);
      } else {
        SharedDownstream(s, n, u, t);
      }
    }

    twostate lemma SharedUpstream(s: nat, new n: nat, new u: nat, new t: nat)
      requires old(Inv()) && Stepped(s, n) && u < s && u < t < |queues|
      ensures Shared(u, t)
    {
      hide StageOk, Flow, QueueKeys, ParentKeys, Aligned, Bound, Ahead, SentBy, At;
      assert old(Shared(u, t)) && old(Shared(u, s));
      WasThere(s, n, t);
      forall r | r in rows && r in stages[u].parentRows && At(t, r)
        ensures joins[u].on.None? && u + 1 in r.source && Bound(joins, u) == Bound(joins, t)
      {
        if r in known {
          OtherEntry(r.source, old(r.source), s + 1, u + 1);
        }
      }
    }

    /** A row at stage `t` was there before, or was at stage `s` and has been sent on. */
    twostate lemma WasThere(s: nat, new n: nat, new t: nat)
      requires old(Inv()) && Stepped(s, n) && t < |queues|
      ensures forall r :: r in old(rows) && At(t, r) ==>
                old(At(t, r)) || (old(At(s, r)) && Bound(joins, s) == Bound(joins, t))
    {
      hide StageOk, Flow, QueueKeys, ParentKeys, Aligned, Bound, Ahead, Shared, Touched;
      if t == s + 1 {
        SentWasHere(s, n, t);
      }
    }

    twostate lemma SharedHere(s: nat, new n: nat, new t: nat)
      requires old(Inv()) && Stepped(s, n) && s < t < |queues|
      ensures Shared(s, t)
    {
      hide StageOk, Flow, QueueKeys, ParentKeys, Aligned, Bound;
      assert old(Shared(s, t)) && old(Ahead(s, t));
      SentWasHere(s, n, t);
    }

    twostate lemma SharedDownstream(s: nat, new n: nat, new u: nat, new t: nat)
      requires old(Inv()) && Stepped(s, n) && s < u < t < |queues|
      ensures Shared(u, t)
    {
      hide StageOk, Flow, QueueKeys, ParentKeys, Aligned, Bound, Ahead, SentBy, Touched;
      assert old(Shared(u, t));
      DownstreamKept(s, n, t);
    }

    twostate lemma AheadNext(s: nat, new n: nat, new a: nat, new b: nat)
      requires old(Inv()) && Stepped(s, n) && a <= b < |queues|
      ensures Ahead(a, b)
    {
      hide StageOk, Flow, QueueKeys, ParentKeys, Aligned, Bound, Shared, Touched;
      assert old(Ahead(a, b));
      if a == s + 1 {
        AheadSent(s, n, b);
      } else {
        if a <= s {
          assert old(Ahead(a, s));
        }
        if s < b {
          SentWasHere(s, n, b);
        }
        if a == s {
          DistinctSplit(old(queues)[s], n);
        }
      }
    }

    twostate lemma AheadSent(s: nat, new n: nat, new b: nat)
      requires old(Inv()) && Stepped(s, n) && s + 1 <= b < |queues|
      ensures Ahead(s + 1, b)
    {
      hide StageOk, Flow, QueueKeys, ParentKeys, Aligned, Bound, Shared, Touched;
      assert old(Ahead(s + 1, b));
      SentWasHere(s, n, s + 1);
      SentWasHere(s, n, b);
      DistinctConcat(old(queues)[s + 1], outputs);
    }

    twostate lemma QueueKeysNext(s: nat, new n: nat, new t: nat)
      requires old(Inv()) && Stepped(s, n) && t < |queues|
      ensures QueueKeys(t)
    {
      hide StageOk, Flow, Aligned, Bound, QueueBound, ParentBound;
      Bounds(joins, s);
      assert old(QueueKeys(t) && QueueKeys(s) && ParentKeys(s));
      if s < t {
        DownstreamKept(s, n, t);
      } else {
        assert old(Ahead(t, s));
      }
      if t == s + 1 {
        SentKeys(s, n);
      }
    }

    /** What is sent reaches no further than the rows it was made from. */
    twostate lemma SentKeys(s: nat, new n: nat)
      requires old(Inv()) && Stepped(s, n)
      ensures forall o :: o in outputs ==> Within(o, QueueBound(joins, s + 1))
    {
      hide StageOk, Flow, Ahead, Shared, Aligned, Bound, QueueBound, ParentBound, Others;
      Bounds(joins, s);
      assert old(QueueKeys(s) && ParentKeys(s));
      forall o | o in outputs
        ensures Within(o, QueueBound(joins, s + 1))
      {
        var r :| r in known && r in old(rows) && Others(o.source, s + 1) == Others(old(r.source), s + 1);
        assert r in old(stages[s].parentRows) || r in old(queues)[s];
        assert old(Within(r, ParentBound(joins, s)));
        SameKeys(old(r.source), o.source, s + 1, ParentBound(joins, s));
      }
    }

    static lemma SameKeys(a: Source, b: Source, from: nat, bound: nat)
      requires Others(a, from) == Others(b, from) && from <= bound && forall k :: k in a ==> k <= bound
      ensures forall k :: k in b ==> k <= bound
    {
      forall k | k in b
        ensures k <= bound
      {
        if k != from {
          OtherEntry(b, a, from, k);
        }
      }
    }

    twostate lemma ParentKeysNext(s: nat, new n: nat, new t: nat)
      requires old(Inv()) && Stepped(s, n) && t < |stages|
      ensures ParentKeys(t)
    {
      hide StageOk, Flow, Aligned, Bound, QueueBound, ParentBound;
      Bounds(joins, s);
      Bounds(joins, t);
      assert old(QueueKeys(s) && ParentKeys(t));
      if s < t {
        DownstreamKept(s, n, t);
      } else {
        assert t < s ==> old(Shared(t, s));
      }
      forall r | r in rows && r in stages[t].parentRows
        ensures Within(r, ParentBound(joins, t))
      {
        if r in known && t <= s {
          assert old(Within(r, ParentBound(joins, t)));
          SameKeys(old(r.source), r.source, s + 1, ParentBound(joins, t));
        }
      }
    }

    /** The other stages see their rows as before. */
    twostate lemma StageOkNext(s: nat, new n: nat, new t: nat)
      requires old(Inv()) && Stepped(s, n) && t < |stages| && t != s
      ensures StageOk(t)
    {
      hide Flow, Aligned, Bound, QueueKeys, ParentKeys, Ahead, Shared, Agrees, SameView, Touched, SentBy;
      assert old(StageOk(t));
      ViewsKept(s, n, t);
      var stage := stages[t];
      AgreesSame(stage.join, stage.ledger, stage.childRows, old(Sources(stage.parentRows)), Sources(stage.parentRows));
    }

    twostate lemma ViewsKept(s: nat, new n: nat, new t: nat)
      requires old(Inv()) && Stepped(s, n) && t < |stages| && t != s
      ensures
        var was, now := old(Sources(stages[t].parentRows)), Sources(stages[t].parentRows);
        |was| == |now| && forall i :: 0 <= i < |was| ==> SameView(stages[t].join, was[i], now[i])
    {
      AlignedAt(joins, t);
      hide Flow, Aligned, Bound, QueueKeys, ParentKeys, Ahead, Agrees, Upto, StageOk;
      var stage := stages[t];
      if s < t {
        DownstreamKept(s, n, t);
      }
      var was, now := old(Sources(stage.parentRows)), Sources(stage.parentRows);
      forall i | 0 <= i < |was|
        ensures SameView(stage.join, was[i], now[i])
      {
        var r := stage.parentRows[i];
        assert r in stage.parentRows;
        if t < s && r in known {
          SameViewElsewhere(stage.join, was[i], now[i], s + 1);
        }
      }
    }

    /** Rows waiting anywhere show the same as before. */
    twostate lemma WaitingKept(s: nat, new n: nat, new t: nat)
      requires old(Inv()) && Stepped(s, n) && t < |queues|
      ensures AllUpto(Sources(old(queues)[t]), t + 1) == old(AllUpto(Sources(queues[t]), t + 1))
    {
      hide Flow, Aligned, Bound, QueueKeys, ParentKeys, StageOk, Upto;
      var q := old(queues)[t];
      if s < t {
        DownstreamKept(s, n, t);
      }
      forall i | 0 <= i < |q|
        ensures Upto(q[i].source, t + 1) == Upto(old(q[i].source), t + 1)
      {
        assert q[i] in old(queues[t]);
        if t <= s && q[i] in known {
          UptoElsewhere(q[i].source, old(q[i].source), s + 1, t + 1);
        }
      }
    }

    twostate lemma FlowElsewhere(s: nat, new n: nat, new t: nat)
      requires old(Inv()) && Stepped(s, n) && t < |queues| && t != s && t != s + 1
      ensures Flow(t)
    {
      hide Aligned, Bound, QueueKeys, ParentKeys, StageOk, Upto, AllUpto, Ahead, Shared, FirstRows;
      assert old(Flow(t));
      WaitingKept(s, n, t);
    }

    twostate lemma BatchSources(s: nat, new n: nat)
      requires Stepped(s, n)
      ensures old(Sources(batch)) == old(Sources(queues[s]))[..n]
    {
    }

    twostate lemma TakenCount(s: nat, new n: nat)
      requires Stepped(s, n)
      requires stages[s].Arrived(old(stages[s].ledger), stages[s].ledger.(settled := old(stages[s].ledger.settled)),
                                 old(Sources(batch)))
      ensures |stages[s].ledger.parents| == old(|stages[s].ledger.parents|) + n
    {
      hide Shape, SentBy, Touched;
    }

    /** Taking a batch moves rows from the queue to the stage. */
    twostate lemma FlowHere(s: nat, new n: nat)
      requires old(Inv()) && Stepped(s, n)
      requires stages[s].Arrived(old(stages[s].ledger), stages[s].ledger.(settled := old(stages[s].ledger.settled)),
                                 old(Sources(batch)))
      ensures Flow(s)
    {
      hide Inv, Stepped, Upto, AllUpto, FirstRows, Stage.Arrived, Sources, Aligned;
      QueueHere(s, n);
      WaitingKept(s, n, s);
      ArrivedIs(stages[s], old(stages[s].ledger), stages[s].ledger.(settled := old(stages[s].ledger.settled)),
                old(Sources(batch)));
      TakenViews(old(queues)[s], old(Sources(queues[s])), n, s + 1);
      assert old(Sources(batch)) == old(Sources(queues[s]))[..n] by {
        BatchSources(s, n);
      }
    }

    twostate lemma QueueHere(s: nat, new n: nat)
      requires old(Inv()) && Stepped(s, n)
      ensures s < |stages| == |joins| && |queues| == |joins| + 1 == |old(queues)| && n <= |old(queues)[s]|
      ensures queues[s] == old(queues)[s][n..] && old(Flow(s)) && stages[s].join.from == s + 1
      ensures Emitted(s) == old(Emitted(s)) && |old(Sources(queues[s]))| == |old(queues)[s]|
      ensures forall r :: r in queues[s] ==> r in rows
    {
      AlignedAt(joins, s);
      hide Aligned, Flow, QueueKeys, ParentKeys, Ahead, Shared, StageOk, SentBy, Touched, FirstRows;
    }

    /** What a callback sends joins the next queue. */
    twostate lemma FlowNext(s: nat, new n: nat)
      requires old(Inv()) && Stepped(s, n)
      requires stages[s].ledger.emitted == old(stages[s].ledger.emitted) + multiset(stages[s].Shown(outputs))
      ensures Flow(s + 1)
    {
      hide Inv, Stepped, Upto, AllUpto, FirstRows, Sources, Stage.Shown, Aligned;
      QueuesNext(s, n);
      WaitingKept(s, n, s + 1);
      ShownIs(stages[s], outputs);
      ViewsConcat(old(queues)[s + 1], outputs, s + 2);
    }

    twostate lemma QueuesNext(s: nat, new n: nat)
      requires old(Inv()) && Stepped(s, n)
      ensures s < |stages| == |joins| && |queues| == |joins| + 1 == |old(queues)|
      ensures queues[s + 1] == old(queues)[s + 1] + outputs && old(Flow(s + 1)) && stages[s].join.from == s + 1
      ensures s + 1 < |stages| ==> stages[s + 1].ledger == old(stages[s + 1].ledger)
      ensures forall r :: r in queues[s + 1] ==> r in rows
    {
      AlignedAt(joins, s);
      hide Aligned, Flow, QueueKeys, ParentKeys, Ahead, Shared, StageOk, SentBy, Touched;
    }

    lemma CallbackReady(s: nat, n: nat)
      requires Inv() && s < |stages| && n <= |queues[s]|
      ensures Shape() && stages[s].Valid() && Scoped(stages[s].join)
      ensures |stages| == |joins| && |queues| == |joins| + 1 && stages[s].join == joins[s] && joins[s].from == s + 1
      ensures forall t :: 0 <= t < |stages| && t != s ==> stages[t] != stages[s]
      ensures Distinct(stages[s].parentRows + queues[s][..n])
      ensures forall r :: r in stages[s].parentRows || r in queues[s] ==> r in rows
    {
      AlignedAt(joins, s);
      hide Flow, Bound, QueueKeys, ParentKeys, Shared, Agrees, Aligned;
      assert StageOk(s) && Ahead(s, s);
      DistinctConcat(stages[s].parentRows, queues[s][..n]);
    }

    /** The callback of stage `s` on the first rows waiting for it. */
    method Invoke(s: nat, stage: Stage, parentBatch: Option<seq<SourceRow>>, childBatch: Option<seq<Row>>,
                  parentDone: bool, childDone: bool)
      returns (sent: seq<SourceRow>)
      requires s < |stages| && s < |joins| && stages[s] == stage && stage.join == joins[s] && joins[s].from == s + 1
      requires stage.Valid() && Scoped(stage.join) && Distinct(stage.parentRows + Items(parentBatch))
      requires known == Stage.Known(stage.parentRows, Items(parentBatch)) && known <= rows
      requires (stage.childDone ==> childDone) && (childBatch.Some? ==> !childDone)
      modifies `outputs, `rows, stage, known
      ensures outputs == sent && rows == old(rows) + (set o | o in outputs) && fresh(rows - old(rows))
      ensures Touched(s) && SentBy(s) && Signed(s)
      ensures stage.parentRows ==
              if stage.join.isLeft && childDone then [] else old(stage.parentRows) + Items(parentBatch)
      ensures stage.Valid() && stage.childDone == childDone
      ensures stage.childRows == old(stage.childRows) + Items(childBatch)
      ensures stage.ledger.settled == if stage.join.isLeft && childDone then |stage.ledger.parents| else 0
      ensures stage.Arrived(old(stage.ledger), stage.ledger.(settled := old(stage.ledger.settled)),
                            old(Sources(Items(parentBatch))))
      ensures stage.ledger.emitted == old(stage.ledger.emitted) + multiset(stage.Shown(outputs))
    {
      hide Scoped, Stage.Valid, Upto, Distinct, Others, Stage.Known, Stage.Shown, Stage.Arrived, Sources,
           Stage.Marks, Stage.Sends, Stage.Sent, Stage.Templates, Stage.Tells, Touched, SentBy, Signed;
      sent := stage.Callback(parentBatch, childBatch, parentDone, childDone, known);
      outputs := sent;
      rows := rows + set o | o in sent;
      TouchedBy(s, stage);
      SentWith(s, stage);
      SignedBy(s, stage);
      OldOrNew(stage);
    }

    twostate lemma SignedBy(new s: nat, stage: Stage)
      requires s < |joins| && s < |stages| && stages[s] == stage && stage.join == joins[s] && joins[s].from == s + 1
      requires known == old(known) && stage.Tells(old(known), outputs)
      requires stage.join.isLeft && stage.childDone ==> forall r :: r in old(known) ==> stage.join.from in r.source
      ensures Signed(s)
    {
    }

    twostate lemma TouchedBy(new s: nat, stage: Stage)
      requires s < |joins| && stage.join == joins[s] && joins[s].from == s + 1
      requires known == old(known) && stage.Marks(old(known))
      requires forall r :: r in old(rows) && r !in known ==> r.source == old(r.source)
      ensures Touched(s)
    {
      hide Others;
    }

    twostate lemma SentWith(new s: nat, stage: Stage)
      requires s < |joins| && s < |stages| && stages[s] == stage && stage.join == joins[s] && joins[s].from == s + 1
      requires known == old(known) && known <= old(rows)
      requires stage.Sent(outputs, old(stage.Templates(known))) && stage.Sends(old(known), [], outputs)
      requires joins[s].on.Some? ==> forall o :: o in outputs ==> o !in stage.parentRows
      requires rows == old(rows) + (set o | o in outputs)
      ensures SentBy(s)
    {
      hide Others;
    }

    /** Rows that were not there before are new objects. */
    twostate lemma OldOrNew(stage: Stage)
      requires known == old(known) && known <= old(rows) && stage.Sends(old(known), [], outputs)
      requires rows == old(rows) + (set o | o in outputs)
      ensures fresh(rows - old(rows))
    {
    }

    /** The rows stage `s` is about to be handed, and all those it may touch. */
    ghost predicate Prepared(s: nat, n: nat)
      requires s < |stages| && s < |queues| && n <= |queues[s]|
      reads this, stages
    {
      batch == queues[s][..n] && known == Stage.Known(stages[s].parentRows, batch)
    }

    /** ... and the queues around it. */
    method Advance(s: nat, stage: Stage, take: Option<nat>, childBatch: Option<seq<Row>>,
                   parentDone: bool, childDone: bool, n: nat)
      requires Inv() && s < |stages| && stage == stages[s]
      requires n <= |queues[s]| && n == Count(take) && Prepared(s, n)
      requires (stage.childDone ==> childDone) && (childBatch.Some? ==> !childDone)
      modifies `queues, `outputs, `rows, stage, rows
      ensures Stepped(s, n) && Signed(s) && fresh(rows - old(rows))
      ensures stage.Valid() && stage.childDone == childDone
      ensures stage.childRows == old(stage.childRows) + Items(childBatch)
      ensures stage.ledger.settled == if stage.join.isLeft && childDone then |stage.ledger.parents| else 0
      ensures stage.Arrived(old(stage.ledger), stage.ledger.(settled := old(stage.ledger.settled)), old(Sources(batch)))
      ensures stage.ledger.emitted == old(stage.ledger.emitted) + multiset(stage.Shown(outputs))
    {
      hide Inv, Shape, Stepped, Scoped, Stage.Valid, Distinct, Touched, SentBy, Signed, Stage.Known, Stage.Shown,
           Stage.Arrived;
      CallbackReady(s, n);
      var parentBatch := if take.Some? then Some(queues[s][..n]) else None;
      assert Items(parentBatch) == queues[s][..n];
      Stage.InKnown(stage.parentRows, batch);
      var sent := Invoke(s, stage, parentBatch, childBatch, parentDone, childDone);
      queues := queues[s := queues[s][n..]][s + 1 := queues[s + 1] + sent];
      MakeStepped(s, n);
    }

    twostate lemma MakeStepped(s: nat, new n: nat)
      requires old(Shape()) && s < |stages| && |old(queues)| == |joins| + 1 && n <= |old(queues)[s]|
      requires batch == old(batch) == old(queues)[s][..n]
      requires queues == old(queues)[s := old(queues)[s][n..]][s + 1 := old(queues)[s + 1] + outputs]
      requires first == old(first) && rows == old(rows) + (set o | o in outputs)
      requires forall t :: 0 <= t < |stages| && t != s ==> unchanged(stages[t])
      requires s < |joins| && stages[s].parentRows ==
               if joins[s].isLeft && stages[s].childDone then [] else old(stages[s].parentRows) + batch
      requires known <= old(rows) && known == old(known)
      requires forall r :: r in old(rows) ==> (r in known <==> r in old(stages[s].parentRows) || r in batch)
      requires s < |joins| && Touched(s) && SentBy(s)
      ensures Stepped(s, n)
    {
      hide Touched, SentBy, Aligned;
    }

    /** The rows a LEFT JOIN was handed carried no mark of its own table. */
    twostate lemma StageOkHere(s: nat, new n: nat)
      requires old(Inv()) && Stepped(s, n) && stages[s].Valid()
      requires stages[s].ledger.settled ==
               if stages[s].join.isLeft && stages[s].childDone then |stages[s].ledger.parents| else 0
      requires stages[s].Arrived(old(stages[s].ledger), stages[s].ledger.(settled := old(stages[s].ledger.settled)),
                                 old(Sources(batch)))
      ensures StageOk(s)
    {
      hide Flow, Aligned, Bound, QueueBound, QueueKeys, ParentKeys, Ahead, Shared, Stage.Valid, Stage.Arrived,
           Flags, AllUpto, Touched, SentBy;
      assert old(StageOk(s));
      if Clean(joins, s) {
        NoneMarked(s, n);
      }
    }

    twostate lemma NoneMarked(s: nat, new n: nat)
      requires old(Inv()) && Stepped(s, n) && Clean(joins, s)
      requires stages[s].Arrived(old(stages[s].ledger), stages[s].ledger.(settled := old(stages[s].ledger.settled)),
                                 old(Sources(batch)))
      ensures forall i :: 0 <= i < |stages[s].ledger.stale| ==> !stages[s].ledger.stale[i]
    {
      hide Flow, Aligned, Bound, QueueBound, QueueKeys, ParentKeys, Ahead, Shared, Stage.Valid, Stage.Arrived,
           Flags, AllUpto, Touched, SentBy, Sources;
      assert old(StageOk(s));
      ArrivedIs(stages[s], old(stages[s].ledger), stages[s].ledger.(settled := old(stages[s].ledger.settled)),
                old(Sources(batch)));
      assert stages[s].join == joins[s];
      BatchUnmarked(s, n);
    }

    twostate lemma BatchUnmarked(s: nat, new n: nat)
      requires old(Inv()) && Stepped(s, n) && Clean(joins, s)
      ensures
        var flags := Flags(joins[s], old(Sources(batch)));
        forall i :: 0 <= i < |flags| ==> !flags[i]
    {
      AlignedAt(joins, s);
      hide Flow, Aligned, Bound, ParentKeys, Ahead, Shared, StageOk, Touched, SentBy;
      assert old(QueueKeys(s));
      forall i | 0 <= i < n
        ensures s + 1 !in old(batch[i].source)
      {
        var r := old(queues)[s][i];
        assert r in old(queues[s]);
        assert old(Within(r, s));
      }
    }

    lemma Assemble()
      requires Shape()
      requires forall s :: 0 <= s < |stages| ==> StageOk(s) && ParentKeys(s)
      requires forall s :: 0 <= s < |queues| ==> Flow(s) && QueueKeys(s)
      requires forall s, t :: 0 <= s <= t < |queues| ==> Ahead(s, t)
      requires forall u, t :: 0 <= u < t < |queues| ==> Shared(u, t)
      ensures Inv()
    {
    }

    twostate lemma ShapeKept(s: nat, new n: nat)
      requires Stepped(s, n)
      ensures Shape() && s < |stages| == |joins| && |queues| == |stages| + 1
    {
    }

    /** What the chain has yielded is never written again. */
    twostate lemma YieldedKept(s: nat, new n: nat)
      requires old(Inv()) && Stepped(s, n)
      ensures |old(queues)| == |joins| + 1 && old(queues)[|joins|] <= queues[|joins|] && first == old(first)
      ensures forall r :: r in old(queues)[|joins|] ==> r.source == old(r.source)
      ensures forall t :: 0 <= t < |stages| && t != s ==>
                && stages[t].childRows == old(stages[t].childRows) && stages[t].childDone == old(stages[t].childDone)
                && stages[t].ledger == old(stages[t].ledger)
    {
      hide Aligned, Flow, QueueKeys, ParentKeys, Ahead, Shared, StageOk, SentBy, Touched;
      DownstreamKept(s, n, |joins|);
      forall r | r in old(queues)[|joins|]
        ensures r.source == old(r.source)
      {
        assert old(At(|joins|, r)) && r in old(rows);
      }
    }

    twostate lemma ServedKept()
      requires old(Served()) && |queues| == |joins| + 1 && old(queues)[|joins|] <= queues[|joins|]
      requires results == old(results) && served == old(served)
      requires forall r :: r in old(queues)[|joins|] ==> r.source == old(r.source)
      ensures Served()
    {
      var was := old(queues)[|joins|];
      assert forall i :: 0 <= i < |was| ==> was[i] in was;
      assert Sources(queues[|joins|])[..served] == old(Sources(queues[|joins|]))[..served];
      assert forall i :: 0 <= i < |results| ==> results[i] in was;
      assert Sources(results) == old(Sources(results));
    }

    /** Notes which rows the next callback of stage `s` is handed, and which it may touch. */
    ghost method Prepare(s: nat, take: Option<nat>)
      requires Inv() && Served() && s < |stages| && s < |queues| && Count(take) <= |queues[s]|
      modifies `batch, `known
      ensures Inv() && Served() && Prepared(s, Count(take))
    {
      hide Inv, Served;
      batch := queues[s][..Count(take)];
      known := Stage.Known(stages[s].parentRows, batch);
    }

    /** One callback of stage `s`: it may be handed rows waiting for it and children of its own table.
        The steps of all stages interleave freely. */
    method Step(s: nat, take: Option<nat>, childBatch: Option<seq<Row>>, parentDone: bool, childDone: bool)
      requires Inv() && Served() && s < |stages|
      requires Count(take) <= |queues[s]| && Prepared(s, Count(take))
      requires (stages[s].childDone ==> childDone) && (childBatch.Some? ==> !childDone)
      modifies `queues, `outputs, `rows, stages[s], rows
      ensures Inv() && Served() && first == old(first) && fresh(rows - old(rows))
      ensures forall t :: 0 <= t < |stages| ==>
                && stages[t].childDone == (if t == s then childDone else old(stages[t].childDone))
                && stages[t].childRows == old(stages[t].childRows) + (if t == s then Items(childBatch) else [])
                && |stages[t].ledger.parents| == old(|stages[t].ledger.parents|) + (if t == s then Count(take) else 0)
      ensures Moved(s, Count(take))
    {
      hide Inv, StageOk, Shape, Stepped, Signed;
      TakeStep(s, take, childBatch, parentDone, childDone, Count(take));
      ServedKept();
      MovedBy(s, Count(take));
    }

    twostate lemma MovedBy(s: nat, new n: nat)
      requires Stepped(s, n) && Signed(s)
      requires stages[s].Arrived(old(stages[s].ledger), stages[s].ledger.(settled := old(stages[s].ledger.settled)),
                                 old(Sources(batch)))
      ensures Moved(s, n)
    {
      hide Touched, SentBy, Signed, Aligned;
      AlignedAt(joins, s);
    }

    method TakeStep(s: nat, take: Option<nat>, childBatch: Option<seq<Row>>, parentDone: bool, childDone: bool, n: nat)
      requires Inv() && s < |stages|
      requires n <= |queues[s]| && n == Count(take) && Prepared(s, n)
      requires (stages[s].childDone ==> childDone) && (childBatch.Some? ==> !childDone)
      modifies `queues, `outputs, `rows, stages[s], rows
      ensures Inv() && |stages| == |joins| && |queues| == |joins| + 1 == |old(queues)|
      ensures first == old(first) && fresh(rows - old(rows))
      ensures forall t :: 0 <= t < |stages| && t != s ==>
                && stages[t].childRows == old(stages[t].childRows) && stages[t].childDone == old(stages[t].childDone)
                && stages[t].ledger == old(stages[t].ledger)
      ensures stages[s].childDone == childDone
      ensures stages[s].childRows == old(stages[s].childRows) + Items(childBatch)
      ensures |stages[s].ledger.parents| == old(|stages[s].ledger.parents|) + n
      ensures old(queues)[|joins|] <= queues[|joins|]
      ensures forall r :: r in old(queues)[|joins|] ==> r.source == old(r.source)
      ensures Stepped(s, n) && Signed(s)
      ensures stages[s].Arrived(old(stages[s].ledger), stages[s].ledger.(settled := old(stages[s].ledger.settled)),
                                old(Sources(batch)))
    {
      hide *;
      Advance(s, stages[s], take, childBatch, parentDone, childDone, n);
      ShapeKept(s, n);
      YieldedKept(s, n);
      TakenCount(s, n);
      StageOkHere(s, n);
      FlowHere(s, n);
      FlowNext(s, n);
      forall t | 0 <= t < |stages|
        ensures StageOk(t) && ParentKeys(t)
      {
        if t != s {
          StageOkNext(s, n, t);
        }
        ParentKeysNext(s, n, t);
      }
      forall t | 0 <= t < |queues|
        ensures Flow(t) && QueueKeys(t)
      {
        if t != s && t != s + 1 {
          FlowElsewhere(s, n, t);
        }
        QueueKeysNext(s, n, t);
      }
      forall a, b | 0 <= a <= b < |queues|
        ensures Ahead(a, b)
      {
        AheadNext(s, n, a, b);
      }
      forall u, t | 0 <= u < t < |queues|
        ensures Shared(u, t)
      {
        SharedNext(s, n, u, t);
      }
      Assemble();
    }

    // ----- The first table and the WHERE clause -----

    /** The rows so far are the ones WHERE keeps. */
    ghost predicate Served()
      reads `queues, `results, `served, results, if |queues| == |joins| + 1 then queues[|joins|] else []
    {
      && |queues| == |joins| + 1 && served <= |queues[|joins|]|
      && Sources(results) == Filter(where, Sources(queues[|joins|])[..served])
      && forall r :: r in results ==> r in queues[|joins|]
    }

    /** A batch of the first table, one new row object each. */
    method Feed(batch: seq<Row>)
      requires Inv() && Served()
      modifies `queues, `first, `rows
      ensures Inv() && Served() && first == old(first) + batch && fresh(rows - old(rows))
      ensures |queues| == |old(queues)| && old(queues)[0] <= queues[0]
      ensures forall t :: 1 <= t < |queues| ==> queues[t] == old(queues)[t]
    {
      hide Inv, StageOk, ParentKeys, QueueKeys, Ahead, Shared, Flow, Aligned, Served, Fed, Shape;
      SizesOf();
      var added := MakeRows(batch);
      queues := queues[0 := queues[0] + added];
      first := first + batch;
      rows := rows + set r | r in added;
      assert forall r :: r in added ==> r !in old(rows);
      MakeFed(added);
      FedStages(added);
      FedKeys(added);
      FedApart(added);
      FedFlow(added, batch);
      assert Shape() by {
        FedShape(added);
      }
      Assemble();
      FedYielded(added);
      ServedKept();
    }

    static method MakeRows(batch: seq<Row>) returns (added: seq<SourceRow>)
      ensures |added| == |batch| && Distinct(added)
      ensures forall i :: 0 <= i < |batch| ==> fresh(added[i]) && added[i].source == FirstRow(batch[i])
    {
      added := [];
      for i := 0 to |batch|
        invariant |added| == i && Distinct(added)
        invariant forall k :: 0 <= k < i ==> fresh(added[k]) && added[k].source == FirstRow(batch[k])
      {
        var row := new SourceRow(FirstRow(batch[i]));
        added := added + [row];
      }
    }

    /** Only the first queue has grown, by rows nobody has seen. */
    twostate predicate Fed(new added: seq<SourceRow>)
      reads this, stages, rows
    {
      && Shape() && Distinct(added) && |old(queues)| == |queues|
      && queues == old(queues)[0 := old(queues)[0] + added]
      && (forall r :: r in added ==> r in rows && r !in old(rows) && r.source.Keys == {0})
      && (forall r :: r in rows && r !in added ==> r in old(rows) && r.source == old(r.source))
      && (forall t :: 0 <= t < |stages| ==>
            && stages[t].parentRows == old(stages[t].parentRows)
            && stages[t].childRows == old(stages[t].childRows)
            && stages[t].ledger == old(stages[t].ledger)
            && stages[t].childDone == old(stages[t].childDone))
    }

    twostate lemma MakeFed(new added: seq<SourceRow>)
      requires old(Inv()) && Distinct(added) && |old(queues)| == |queues| > 0
      requires queues == old(queues)[0 := old(queues)[0] + added]
      requires rows == old(rows) + (set r | r in added)
      requires forall r :: r in added ==> r !in old(rows) && r.source.Keys == {0}
      requires forall r :: r in old(rows) ==> r.source == old(r.source)
      requires forall t :: 0 <= t < |stages| ==> unchanged(stages[t])
      ensures Fed(added)
    {
      hide StageOk, ParentKeys, QueueKeys, Ahead, Shared, Flow, Aligned;
    }

    twostate lemma FedShape(new added: seq<SourceRow>)
      requires Fed(added)
      ensures Shape()
    {
    }

    twostate lemma FedYielded(new added: seq<SourceRow>)
      requires old(Inv()) && Fed(added)
      ensures |queues| == |joins| + 1 && old(queues)[|joins|] <= queues[|joins|]
      ensures forall r :: r in old(queues)[|joins|] ==> r.source == old(r.source)
    {
      hide StageOk, ParentKeys, QueueKeys, Ahead, Shared, Flow, Aligned;
      assert forall r :: r in old(queues[|joins|]) ==> r in old(rows);
      assert forall r :: r in old(queues)[|joins|] ==> r in queues[|joins|];
    }

    twostate lemma FedStages(new added: seq<SourceRow>)
      requires old(Inv()) && Fed(added)
      ensures forall t :: 0 <= t < |stages| ==> StageOk(t) && ParentKeys(t)
    {
      hide Flow, Aligned, Bound, ParentBound, QueueKeys, Ahead, Shared, Agrees;
      forall t | 0 <= t < |stages|
        ensures StageOk(t) && ParentKeys(t)
      {
        assert old(StageOk(t) && ParentKeys(t));
        assert forall r :: r in stages[t].parentRows ==> r in old(rows) && r !in added && r.source == old(r.source);
        assert Sources(stages[t].parentRows) == old(Sources(stages[t].parentRows));
      }
    }

    twostate lemma FedKeys(new added: seq<SourceRow>)
      requires old(Inv()) && Fed(added)
      ensures forall t :: 0 <= t < |queues| ==> QueueKeys(t)
    {
      hide Flow, Aligned, Bound, ParentBound, QueueBound, Ahead, Shared, StageOk, ParentKeys;
      forall t | 0 <= t < |queues|
        ensures QueueKeys(t)
      {
        assert old(QueueKeys(t));
      }
    }

    twostate lemma FedApart(new added: seq<SourceRow>)
      requires old(Inv()) && Fed(added)
      ensures forall s, t :: 0 <= s <= t < |queues| ==> Ahead(s, t)
      ensures forall u, t :: 0 <= u < t < |queues| ==> Shared(u, t)
    {
      hide Flow, Aligned, Bound, ParentBound, QueueBound, QueueKeys, StageOk, ParentKeys;
      assert old(Ahead(0, 0));
      DistinctConcat(old(queues)[0], added);
      forall s, t | 0 <= s <= t < |queues|
        ensures Ahead(s, t)
      {
        assert old(Ahead(s, t));
      }
      forall u, t | 0 <= u < t < |queues|
        ensures Shared(u, t)
      {
        assert old(Shared(u, t));
      }
    }

    twostate lemma FedFlow(new added: seq<SourceRow>, new batch: seq<Row>)
      requires old(Inv()) && Fed(added) && first == old(first) + batch
      requires |added| == |batch| && forall i :: 0 <= i < |batch| ==> added[i].source == FirstRow(batch[i])
      ensures forall t :: 0 <= t < |queues| ==> Flow(t)
    {
      hide Aligned, Bound, ParentBound, QueueBound, QueueKeys, StageOk, ParentKeys, Ahead, Shared,
           AllUpto, Sources, FirstRows, FirstRow;
      forall t | 0 <= t < |queues|
        ensures Flow(t)
      {
        assert old(Flow(t));
        FedWaiting(added, t);
        if t == 0 {
          FirstViews(old(first), batch, added);
          ViewsConcat(old(queues)[t], added, 1);
        }
      }
    }

    twostate lemma FedWaiting(new added: seq<SourceRow>, new t: nat)
      requires old(Inv()) && Fed(added) && t < |queues|
      ensures Sources(old(queues)[t]) == old(Sources(queues[t]))
    {
      hide Flow, Aligned, Bound, ParentBound, QueueBound, QueueKeys, StageOk, ParentKeys, Ahead, Shared;
      var q := old(queues)[t];
      forall i | 0 <= i < |q|
        ensures q[i].source == old(q[i].source)
      {
        assert q[i] in old(queues[t]) && q[i] in queues[t] && q[i] !in added;
      }
    }

    static lemma FirstViews(front: seq<Row>, batch: seq<Row>, added: seq<SourceRow>)
      requires |added| == |batch| && forall i :: 0 <= i < |batch| ==> added[i].source == FirstRow(batch[i])
      ensures multiset(FirstRows(front + batch)) == multiset(FirstRows(front)) + multiset(AllUpto(Sources(added), 1))
    {
      assert FirstRows(front + batch) == FirstRows(front) + FirstRows(batch);
      assert forall i :: 0 <= i < |batch| ==> Upto(FirstRow(batch[i]), 1) == FirstRow(batch[i]);
      assert AllUpto(Sources(added), 1) == FirstRows(batch);
    }

    /** The next rows of the chain pass through WHERE. */
    method Emit(n: nat)
      requires Inv() && Served() && served + n <= |queues[|joins|]|
      modifies `results, `served
      ensures Inv() && Served() && served == old(served) + n 
    {
      hide Inv, Filter;
      var batch := queues[|joins|][served..served + n];
      ghost var sources := Sources(queues[|joins|]);
      FilterConcat(where, sources[..served], Sources(batch));
      assert sources[..served + n] == sources[..served] + Sources(batch);
      var kept := FilterBatch(batch, where);
      assert Sources(results + kept) == Sources(results) + Sources(kept);
      results, served := results + kept, served + n;
    }

    // ----- The answer -----

    /** The children each stage has been given. */
    ghost function Tables(n: nat): seq<seq<Row>>
      requires n <= |stages|
      reads stages
    {
      seq(n, s requires 0 <= s < n reads stages => stages[s].childRows)
    }

    /** Every side of every join is done and no row is waiting. */
    ghost predicate Drained(n: nat)
      requires n <= |stages| && n <= |queues|
      reads `queues, stages
    {
      forall s :: 0 <= s < n ==> queues[s] == [] && stages[s].childDone
    }

    /** A drained stage has sent its join of what reached it. */
    lemma StageAnswer(s: nat)
      requires Inv() && s < |stages| && s < |joins| && stages[s].childDone && queues[s] == []
      requires joins[s].isLeft ==> Clean(joins, s)
      ensures stages[s].ledger.emitted == multiset(NestedLoop(joins[s], stages[s].ledger.parents, stages[s].childRows))
      ensures Emitted(s) == multiset(stages[s].ledger.parents)
    {
      hide Aligned, Bound, ParentBound, QueueBound, QueueKeys, ParentKeys, Ahead, Shared, AllFaithful, Balanced,
           NestedLoop, FirstRows, Matches;
      assert StageOk(s) && Flow(s);
      assert AllUpto(Sources([]), s + 1) == [];
      FinishedIffUnmarked(joins[s], stages[s].ledger, stages[s].childRows);
    }

    lemma {:induction false} ChainAnswer(n: nat)
      requires Inv() && Sound(joins) && n <= |stages| && Drained(n)
      ensures Emitted(n) == multiset(JoinChain(first, joins[..n], Tables(n)))
    {
      hide Inv, NestedLoop, Sound;
      if n == 0 {
        assert JoinChain(first, joins[..0], Tables(0)) == FirstRows(first);
      } else {
        var s := n - 1;
        SizesOf();
        ChainAnswer(s);
        if joins[s].isLeft {
          SoundAt(joins, s);
        }
        StageAnswer(s);
        assert joins[..n][..s] == joins[..s] && Tables(n)[..s] == Tables(s);
        NestedLoopBag(joins[s], JoinChain(first, joins[..s], Tables(s)), stages[s].ledger.parents, stages[s].childRows);
      }
    }

    lemma SizesOf()
      requires Inv()
      ensures |stages| == |joins| && |queues| == |joins| + 1
    {
    }

    /** The rows yielded hold exactly what they show: nothing is left in them about later tables. */
    lemma YieldedWhole()
      requires Inv()
      ensures |queues| == |joins| + 1
      ensures AllUpto(Sources(queues[|joins|]), |joins| + 1) == Sources(queues[|joins|])
    {
      var n := |joins|;
      BoundRange(joins, n);
      assert QueueKeys(n);
      forall i | 0 <= i < |queues[n]|
        ensures Upto(queues[n][i].source, n + 1) == queues[n][i].source
      {
        assert queues[n][i] in queues[n];
        assert Within(queues[n][i], n);
      }
    }

    /** When everything is drained and served, the result is the fold of the joins, then WHERE, whatever
        the batches were and in whatever order the stages ran. */
    lemma Complete()
      requires Inv() && Sound(joins) && Served() && |joins| <= |stages| && Drained(|joins|) &&
               served == |queues[|joins|]|
      ensures |stages| == |joins|
      ensures multiset(Sources(results)) == multiset(Filter(where, JoinChain(first, joins, Tables(|joins|))))
    {
      hide Filter, NestedLoop, Sound, Aligned;
      SizesOf();
      var n := |joins|;
      ChainAnswer(n);
      YieldedWhole();
      assert joins[..n] == joins;
      assert Flow(n);
      var all := Sources(queues[n]);
      assert all[..served] == all;
      FilterBag(where, JoinChain(first, joins, Tables(n)), all);
    }
  }

  function Count(take: Option<nat>): nat {
    if take.Some? then take.value else 0
  }

  /** What can happen next in a chain. */
  datatype Event =
    | Read(rows: seq<Row>)
    | Call(stage: nat, take: Option<nat>, children: Option<seq<Row>>, parentDone: bool, childDone: bool)
    | Serve(count: nat)

  /** Any schedule at all, with any batches; events that cannot happen when their turn comes are passed over. */
  method Run(joins: seq<Join>, where: Source -> bool, schedule: seq<Event>) returns (chain: Chain)
    requires Aligned(joins)
    ensures chain.joins == joins && chain.where == where && chain.Inv() && chain.Served()
    ensures |chain.stages| == |joins| && |chain.queues| == |joins| + 1
    ensures
      Sound(joins) && chain.Drained(|joins|) && chain.served == |chain.queues[|joins|]| ==>
        multiset(Sources(chain.results)) ==
        multiset(Filter(where, JoinChain(chain.first, joins, chain.Tables(|joins|))))
  {
    hide *;
    chain := new Chain(joins, where);
    for k := 0 to |schedule|
      invariant chain.joins == joins && chain.where == where && chain.Inv() && chain.Served()
      invariant fresh(chain) && fresh(chain.stages) && fresh(chain.rows)
    {
      chain.SizesOf();
      match schedule[k] {
        case Read(rows) =>
          chain.Feed(rows);
        case Call(s, take, children, parentDone, childDone) =>
          if s < |joins| && Count(take) <= |chain.queues[s]| &&
             (chain.stages[s].childDone ==> childDone) && (children.Some? ==> !childDone) {
            chain.Prepare(s, take);
            chain.Step(s, take, children, parentDone, childDone);
          }
        case Serve(count) =>
          if chain.served + count <= |chain.queues[|joins|]| {
            chain.Emit(count);
          }
      }
    }
    chain.SizesOf();
    if Sound(joins) && chain.Drained(|joins|) && chain.served == |chain.queues[|joins|]| {
      chain.Complete();
    }
  }

  method FilterBatch(batch: seq<SourceRow>, where: Source -> bool) returns (kept: seq<SourceRow>)
    ensures Sources(kept) == Filter(where, Sources(batch))
    ensures forall r :: r in kept ==> r in batch
  {
    var arr := new SourceRow[|batch|](i requires 0 <= i < |batch| => batch[i]);
    assert arr[..] == batch;
    var length, verdicts := FilterInPlace.FilterInPlace(arr, (row: SourceRow) reads row => where(row.source));
    KeptSources(batch, verdicts, where);
    kept := arr[..length];
  }

  lemma {:induction false} KeptSources(rows: seq<SourceRow>, verdicts: seq<bool>, where: Source -> bool)
    requires |verdicts| == |rows| && forall i :: 0 <= i < |rows| ==> verdicts[i] == where(rows[i].source)
    ensures Sources(FilterInPlace.Kept(rows, verdicts)) == Filter(where, Sources(rows))
    ensures forall r :: r in FilterInPlace.Kept(rows, verdicts) ==> r in rows
  {
    if rows != [] {
      var n := |rows| - 1;
      KeptSources(rows[..n], verdicts[..n], where);
      assert Sources(rows)[..n] == Sources(rows[..n]);
    }
  }
}
