/** `drainBoth` over one join: two asynchronous sources, raced, and every schedule gives the join. */
module DrainBoth {
  import opened Common
  import opened JoinSpec
  import opened JoinStage

  lemma FlattenFirst<T>(batches: seq<seq<T>>)
    requires batches != []
    ensures Flatten(batches) == batches[0] + Flatten(batches[1..])
  {
  }

  /** Taking the first batch off a queue of rows. */
  lemma NextRows<T>(rows: seq<T>, handed: nat, batches: seq<seq<T>>)
    requires handed <= |rows| && rows[handed..] == Flatten(batches) && batches != []
    ensures
      var n := handed + |batches[0]|;
      && n <= |rows| && rows[handed..n] == batches[0] && rows[n..] == Flatten(batches[1..])
  {
    assert rows[handed..][..|batches[0]|] == batches[0];
    assert rows[handed..][|batches[0]|..] == Flatten(batches[1..]);
  }

  lemma DistinctSlice<T>(s: seq<T>, i: nat, k: nat)
    requires i <= k <= |s| && Distinct(s)
    ensures Distinct(s[i..k])
  {
  }

  class Drain {
    const stage: Stage
    // What each source has yet to yield.
    var sourceA: seq<seq<SourceRow>>
    var sourceB: seq<seq<Row>>
    var aDone: bool
    var bDone: bool
    // The sides whose next result is awaited: 0 for `sourceA`, 1 for `sourceB`.
    var promises: set<nat>
    var sent: seq<seq<SourceRow>>

    // All upstream rows, what they held to begin with, and how many have been handed over.
    ghost const rows: seq<SourceRow>
    ghost const original: seq<Source>
    ghost var handed: nat
    ghost const children: seq<Row>
    // All rows sent so far, and the rows the callback under way may touch.
    ghost var all: seq<SourceRow>
    ghost var known: set<SourceRow>

    constructor (j: Join, a: seq<seq<SourceRow>>, b: seq<seq<Row>>)
      requires Scoped(j) && Distinct(Flatten(a))
      ensures stage.join == j && rows == Flatten(a) && original == Sources(rows) && children == Flatten(b)
      ensures fresh(stage) && Ready() && !aDone && !bDone && promises == {}
      ensures sourceA == a && sourceB == b
    {
      var s := new Stage(j);
      stage, sourceA, sourceB := s, a, b;
      aDone, bDone, promises, sent := false, false, {}, [];
      rows, original, handed, children := Flatten(a), Sources(Flatten(a)), 0, Flatten(b);
      all, known := [], {};
      new;
      NothingHanded();
    }

    lemma NothingHanded()
      requires Scoped(stage.join) && stage.Valid() && stage.parentRows == [] && stage.childRows == [] &&
               !stage.childDone
      requires stage.ledger == Ledger([], [], [], 0, multiset{})
      requires rows == Flatten(sourceA) && Distinct(rows) && original == Sources(rows) && children == Flatten(sourceB)
      requires handed == 0 && !aDone && !bDone && all == [] && sent == []
      ensures Ready()
    {
      hide Scoped, Stage.Valid, Distinct;
      assert rows[0..] == rows && [] + children == children;
      assert stage.Shown([]) == [];
    }

    ghost predicate Queued()
      reads `handed, `sourceA, `sourceB, `aDone, `bDone, stage
    {
      && handed <= |rows| && rows[handed..] == Flatten(sourceA)
      && children == stage.childRows + Flatten(sourceB)
      && (aDone ==> sourceA == []) && (bDone ==> sourceB == [])
    }

    /** The stage has been told exactly about the first `n` rows. */
    ghost predicate Told(n: nat, nowB: bool)
      requires n <= |rows| == |original|
      reads stage
    {
      && stage.parentRows == (if stage.join.isLeft && nowB then [] else rows[..n])
      && stage.ledger.parents == AllUpto(original[..n], stage.join.from)
      && stage.ledger.stale == Flags(stage.join, original[..n])
      && stage.childDone == nowB
      && stage.ledger.settled == (if stage.join.isLeft && nowB then |stage.ledger.parents| else 0)
    }

    /** These rows are all the stage sent, and none of them will be written again. */
    ghost predicate Safe(all: seq<SourceRow>)
      reads stage, all
    {
      && stage.ledger.emitted == multiset(stage.Shown(all))
      && forall o :: o in all && o in stage.parentRows ==> stage.join.on.None? && stage.join.from in o.source
    }

    /** The rows from `n` on are untouched and not among `all`. */
    ghost predicate Untouched(n: nat, all: seq<SourceRow>)
      requires n <= |rows| == |original|
      reads rows
    {
      forall i :: n <= i < |rows| ==> rows[i].source == original[i] && rows[i] !in all
    }

    ghost predicate Steady(n: nat, all: seq<SourceRow>, nowB: bool)
      reads stage, rows, stage.parentRows, all
    {
      && Scoped(stage.join) && stage.Valid()
      && n <= |rows| == |original| && Distinct(rows)
      && Told(n, nowB) && Safe(all) && Untouched(n, all)
    }

    /** Holds after every callback, whatever the schedule so far. */
    ghost predicate Ready()
      reads `handed, `sourceA, `sourceB, `aDone, `bDone, `all, `sent, stage, rows, stage.parentRows, all
    {
      Steady(handed, all, bDone) && Queued() && all == Flatten(sent)
    }

    /** The rows a callback may touch that takes rows `n` to `m`. */
    ghost predicate Knows(n: nat, m: nat)
      requires n <= m <= |rows|
      reads `known, stage
    {
      known == Stage.Known(stage.parentRows, rows[n..m])
    }

    /** What the callback recorded about its batch is what those rows held to begin with. */
    lemma ToldNext(l: Ledger, l': Ledger, n: nat, m: nat, sources: seq<Source>)
      requires n <= m <= |rows| == |original| && sources == original[n..m]
      requires l.parents == AllUpto(original[..n], stage.join.from)
      requires l.stale == Flags(stage.join, original[..n])
      requires stage.Arrived(l, l', sources)
      ensures l'.parents == AllUpto(original[..m], stage.join.from)
      ensures l'.stale == Flags(stage.join, original[..m])
    {
      assert original[..m] == original[..n] + original[n..m];
    }

    /** None of the later rows is among them, and what was sent is not written by such a callback. */
    lemma KnownRows(n: nat, m: nat, all: seq<SourceRow>)
      requires n <= m <= |rows| == |original| && Distinct(rows) && Knows(n, m) && Safe(all) && Untouched(n, all)
      requires stage.parentRows == [] || stage.parentRows == rows[..n]
      ensures forall o :: o in stage.parentRows || o in rows[n..m] ==> o in known
      ensures forall o :: o in known ==> o in rows
      ensures forall i :: m <= i < |rows| ==> rows[i] !in known
      ensures forall o :: o in all && o in known ==> stage.join.on.None? && stage.join.from in o.source
    {
      hide Stage.Shown, Stage.Known;
      Stage.InKnown(stage.parentRows, rows[n..m]);
      assert forall i :: n <= i < m ==> rows[i] !in all;
    }

    lemma DistinctBatch(n: nat, m: nat)
      requires n <= m <= |rows| && Distinct(rows)
      requires stage.parentRows == [] || stage.parentRows == rows[..n]
      ensures Distinct(stage.parentRows + rows[n..m])
      ensures rows[..n] + rows[n..m] == rows[..m]
    {
      DistinctSlice(rows, n, m);
      DistinctSlice(rows, 0, m);
      assert rows[..m] == rows[..n] + rows[n..m];
      assert rows[0..m] == rows[..m] && [] + rows[n..m] == rows[n..m];
    }

    /** A callback leaves alone what was sent before it. */
    twostate lemma SentIsKept()
      requires known == old(known) && all == old(all) && stage.Marks(old(known))
      requires forall o :: o in all && o in known ==> stage.join.on.None? && stage.join.from in old(o.source)
      requires forall o :: o in all && o !in known ==> o.source == old(o.source)
      ensures forall o :: o in all ==> o.source == old(o.source)
      ensures stage.Shown(all) == old(stage.Shown(all))
    {
      forall o | o in all
        ensures o.source == old(o.source)
      {
      }
      assert Sources(all) == old(Sources(all));
    }

    /** What was safe is safe together with what the callback sends. */
    lemma SafeNext(all: seq<SourceRow>, outputs: seq<SourceRow>, templates: set<Source>)
      requires stage.ledger.emitted == multiset(stage.Shown(all)) + multiset(stage.Shown(outputs))
      requires forall o :: o in all && o in known ==> stage.join.on.None? && stage.join.from in o.source
      requires stage.Sent(outputs, templates)
      requires stage.join.on.Some? ==> forall o :: o in outputs ==> o !in stage.parentRows
      requires forall o :: o in stage.parentRows ==> o in known
      ensures Safe(all + outputs)
    {
      assert stage.Shown(all + outputs) == stage.Shown(all) + stage.Shown(outputs);
    }

    /** A callback sends new rows and rows it knows. */
    twostate lemma OnlyKnownSent(new outputs: seq<SourceRow>)
      requires known == old(known) && stage.Sends(old(known), [], outputs)
      ensures forall i :: 0 <= i < |rows| && rows[i] in outputs ==> rows[i] in known
    {
    }

    /** The callback itself, on the next rows `n` to `m`, and on the next children. */
    method Hand(a: Option<seq<SourceRow>>, b: Option<seq<Row>>, nowA: bool, nowB: bool,
                ghost n: nat, ghost m: nat, ghost wasB: bool)
      returns (outputs: seq<SourceRow>)
      requires Steady(n, all, wasB)
      requires n <= m <= |rows| && rows[n..m] == Items(a) && Knows(n, m)
      requires (wasB ==> nowB) && (b.Some? ==> !nowB)
      modifies stage, rows
      ensures Steady(m, all + outputs, nowB)
      ensures stage.childRows == old(stage.childRows) + Items(b)
    {
      hide AllUpto, Flags, Scoped, Others, Upto, Distinct, Safe, Stage.Marks, Stage.Sends, Stage.Sent,
           Stage.Arrived, Stage.Templates, Stage.Shown, Stage.Valid, Stage.Known;
      ghost var sources := Sources(Items(a));
      BatchSources(n, m, all);
      KnownRows(n, m, all);
      DistinctBatch(n, m);
      ghost var templates := stage.Templates(known);
      assert stage.ledger.emitted == multiset(stage.Shown(all)) by {
        SafeEmitted(all);
      }
      outputs := stage.Callback(a, b, nowA, nowB, known);
      SentIsKept();
      ToldNext(old(stage.ledger), stage.ledger.(settled := old(stage.ledger.settled)), n, m, sources);
      SafeNext(all, outputs, templates);
      OnlyKnownSent(outputs);
      assert Untouched(m, all + outputs) by {
        assert forall i :: m <= i < |rows| ==> rows[i] !in known;
      }
      assert Told(m, nowB);
    }

    lemma SafeEmitted(all: seq<SourceRow>)
      requires Safe(all)
      ensures stage.ledger.emitted == multiset(stage.Shown(all))
    {
    }

    lemma BatchSources(n: nat, m: nat, all: seq<SourceRow>)
      requires n <= m <= |rows| == |original| && Untouched(n, all)
      ensures Sources(rows[n..m]) == original[n..m]
    {
    }

    /** The results that settled: the next batch of either source. */
    method Take(takeA: bool, takeB: bool) returns (a: Option<seq<SourceRow>>, b: Option<seq<Row>>)
      requires Queued() && (takeA ==> sourceA != []) && (takeB ==> sourceB != [])
      modifies `sourceA, `sourceB
      ensures b.Some? <==> takeB
      ensures handed + |Items(a)| <= |rows| && rows[handed..handed + |Items(a)|] == Items(a)
      ensures rows[handed + |Items(a)|..] == Flatten(sourceA)
      ensures children == stage.childRows + Items(b) + Flatten(sourceB)
      ensures sourceA == if takeA then old(sourceA)[1..] else old(sourceA)
      ensures sourceB == if takeB then old(sourceB)[1..] else old(sourceB)
    {
      hide Flatten;
      a, b := None, None;
      if takeA {
        NextRows(rows, handed, sourceA);
        a, sourceA := Some(sourceA[0]), sourceA[1..];
      }
      if takeB {
        FlattenFirst(sourceB);
        b, sourceB := Some(sourceB[0]), sourceB[1..];
      }
    }

    /** Yields what the callback returned, unless that is nothing. */
    method Yield(outputs: seq<SourceRow>)
      requires all == Flatten(sent)
      modifies `sent, `all
      ensures all == old(all) + outputs && all == Flatten(sent)
    {
      all := all + outputs;
      if |outputs| > 0 {
        FlattenSnoc(sent, outputs);
        sent := sent + [outputs];
      }
    }

    /** One callback of the generator: the next batch of either side, or news that a side is done. */
    method Call(takeA: bool, takeB: bool, nowA: bool, nowB: bool)
      requires Ready()
      requires takeA ==> sourceA != []
      requires takeB ==> sourceB != [] && !nowB
      requires (aDone ==> nowA) && (bDone ==> nowB)
      requires nowA ==> |sourceA| == if takeA then 1 else 0
      requires nowB ==> sourceB == []
      modifies this, stage, rows
      ensures Ready() && aDone == nowA && bDone == nowB && promises == old(promises)
      ensures sourceA == if takeA then old(sourceA)[1..] else old(sourceA)
      ensures sourceB == if takeB then old(sourceB)[1..] else old(sourceB)
    {
      hide Steady, Flatten;
      var a, b := Take(takeA, takeB);
      var outputs := Deliver(a, b, nowA, nowB);
      Yield(outputs);
      assert Steady(handed, all, bDone);
    }

    /** Hands over what was taken, and the news. */
    method Deliver(a: Option<seq<SourceRow>>, b: Option<seq<Row>>, nowA: bool, nowB: bool)
      returns (outputs: seq<SourceRow>)
      requires Steady(handed, all, bDone) && (bDone ==> nowB) && (b.Some? ==> !nowB)
      requires handed + |Items(a)| <= |rows| && rows[handed..handed + |Items(a)|] == Items(a)
      requires rows[handed + |Items(a)|..] == Flatten(sourceA)
      requires children == stage.childRows + Items(b) + Flatten(sourceB)
      requires (nowA ==> sourceA == []) && (nowB ==> sourceB == [])
      modifies `aDone, `bDone, `known, `handed, stage, rows
      ensures Steady(handed, all + outputs, bDone) && Queued() && aDone == nowA && bDone == nowB
    {
      hide Steady, Stage.Known, Flatten, Stage.Valid, Safe, Untouched, Told;
      ghost var wasB, n := bDone, handed;
      aDone, bDone := nowA, nowB;
      known := Stage.Known(stage.parentRows, Items(a));
      handed := handed + |Items(a)|;
      outputs := Hand(a, b, nowA, nowB, n, handed, wasB);
    }

    /** A side is awaited exactly as long as it is not done. */
    ghost predicate Awaiting()
      reads `promises, `aDone, `bDone
    {
      promises == (if aDone then {} else {0}) + (if bDone then {} else {1})
    }

    /** Both first results are awaited together. */
    method First()
      requires Ready() && !aDone && !bDone
      modifies this, stage, rows
      ensures Ready() && Awaiting()
    {
      hide Ready;
      Call(|sourceA| > 0, |sourceB| > 0, |sourceA| == 0, |sourceB| == 0);
      promises := {};
      if !aDone {
        promises := promises + {0};
      }
      if !bDone {
        promises := promises + {1};
      }
    }

    /** One turn of the race, won by side `index`. */
    method Race(index: nat)
      requires Ready() && Awaiting() && index in promises
      modifies this, stage, rows
      ensures Ready() && Awaiting()
      ensures |sourceA| + |sourceB| + |promises| < old(|sourceA| + |sourceB| + |promises|)
    {
      hide Ready;
      DoneIsEmpty();
      if index == 0 {
        if |sourceA| == 0 {
          promises := promises - {0};
          Call(false, false, true, bDone);
        } else {
          Call(true, false, aDone, bDone);
        }
      } else {
        if |sourceB| == 0 {
          promises := promises - {1};
          Call(false, false, aDone, true);
        } else {
          Call(false, true, aDone, bDone);
        }
      }
    }

    lemma DoneIsEmpty()
      requires Ready()
      ensures (aDone ==> sourceA == []) && (bDone ==> sourceB == [])
    {
    }

    /** Until the child side is done, exactly the matches among the rows handed over have been sent. */
    lemma SentSoFar()
      requires Ready() && !bDone
      ensures multiset(stage.Shown(Flatten(sent))) ==
              multiset(NestedLoop(stage.join.(isLeft := false), AllUpto(original[..handed], stage.join.from),
                                  stage.childRows))
    {
      UnfinishedIsInner(stage.join, stage.ledger, stage.childRows);
    }

    /** The whole stream. Which promise wins each race is up to the environment. Once both sides are done
        the rows sent are the nested-loop answer, if and only if no parent of a LEFT JOIN that matches
        nothing came in with an entry for the joined table. */
    method Run()
      requires Ready() && !aDone && !bDone
      modifies this, stage, rows
      ensures
        var parents := AllUpto(original, stage.join.from);
        multiset(stage.Shown(Flatten(sent))) == multiset(NestedLoop(stage.join, parents, children)) <==>
        (stage.join.isLeft ==> forall i :: 0 <= i < |rows| && stage.join.from in original[i] ==>
                                 Matches(stage.join, parents[i], children) != [])
    {
      hide Ready;
      First();
      while promises != {}
        invariant Ready() && Awaiting()
        decreases |sourceA| + |sourceB| + |promises|
      {
        var index :| index in promises;
        Race(index);
      }
      Finished();
    }

    lemma Finished()
      requires Ready() && aDone && bDone
      ensures
        var parents := AllUpto(original, stage.join.from);
        |parents| == |rows| == |original| &&
        (multiset(stage.Shown(Flatten(sent))) == multiset(NestedLoop(stage.join, parents, children)) <==>
         (stage.join.isLeft ==> forall i :: 0 <= i < |rows| && stage.join.from in original[i] ==>
                                  Matches(stage.join, parents[i], children) != []))
    {
      hide NestedLoop, Matches, NullRows, MatchedSoFar, AllFaithful, Balanced;
      assert rows[handed..] == [] && original[..handed] == original;
      assert stage.childRows == children;
      FinishedIffUnmarked(stage.join, stage.ledger, stage.childRows);
    }
  }
}
