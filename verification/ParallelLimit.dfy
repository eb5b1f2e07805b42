/** `timesLimit`, `parallelLimit` and the batches of `parallelBatch`: tasks 0, 1, 2, ... with at most
    `limit` of them running at once. */
module ParallelLimit {
  import opened Common

  /** What was called on the promise that `timesLimit` returns; only the first call has an effect. */
  datatype Call = Resolve | Reject

  datatype Status = Running | Finished | Failed

  function InFlight(tasks: seq<Status>): nat {
    if tasks == [] then 0 else
      InFlight(tasks[..|tasks| - 1]) + (if tasks[|tasks| - 1] == Running then 1 else 0)
  }

  lemma {:induction false} InFlightUpdate(tasks: seq<Status>, k: nat, s: Status)
    requires k < |tasks| && tasks[k] == Running && s != Running
    ensures InFlight(tasks[k := s]) == InFlight(tasks) - 1
  {
    var n := |tasks| - 1;
    if k < n {
      assert tasks[k := s][..n] == tasks[..n][k := s];
      InFlightUpdate(tasks[..n], k, s);
    } else {
      assert tasks[k := s][..n] == tasks[..n];
    }
  }

  lemma {:induction false} InFlightNone(tasks: seq<Status>)
    ensures InFlight(tasks) == 0 <==> Running !in tasks
  {
    if tasks != [] {
      InFlightNone(tasks[..|tasks| - 1]);
      assert tasks == tasks[..|tasks| - 1] + [tasks[|tasks| - 1]];
    }
  }

  lemma InFlightSnoc(tasks: seq<Status>)
    ensures InFlight(tasks + [Running]) == InFlight(tasks) + 1
  {
    assert (tasks + [Running])[..|tasks|] == tasks;
  }

  class Scheduler {
    const length: int
    const limit: int
    var i: int
    var running: int
    var stop: bool

    // What became of each task that was launched: its own promise.
    var tasks: seq<Status>
    // The launches in order, and the calls made on the promise of the whole.
    ghost var started: seq<int>
    ghost var calls: seq<Call>

    constructor (length: int, limit: int)
      ensures this.length == length && this.limit == limit && Valid() && Launched()
      ensures i == Max(0, Min(length, limit)) && Finished !in tasks && Failed !in tasks
    {
      this.length, this.limit := length, limit;
      i, running, stop := 0, 0, false;
      started, tasks, calls := [], [], [];
      new;
      if length <= 0 {
        calls := [Resolve];
      } else {
        LoopLaunch();
      }
    }

    /** Every index is started once, in increasing order. */
    ghost predicate InOrder()
      reads this
    {
      && 0 <= i <= Max(0, length) && |tasks| == |started| == i
      && forall k :: 0 <= k < i ==> started[k] == k
    }

    /** At most `limit` tasks are in flight; a failed task stops all launching. */
    ghost predicate Bounded()
      reads this
    {
      && InFlight(tasks) <= running <= Max(0, limit)
      && (!stop ==> running == InFlight(tasks))
      && (stop <==> Failed in tasks)
    }

    /** The promise is resolved, once, exactly when every task has been started and has finished, and
        rejected exactly when one has failed. */
    ghost predicate Settled()
      reads this
    {
      && (!stop ==> calls == if i >= length && InFlight(tasks) == 0 then [Resolve] else [])
      && (stop ==> calls != [] && forall k :: 0 <= k < |calls| ==> calls[k] == Reject)
    }

    ghost predicate Valid()
      reads this
    {
      InOrder() && Bounded() && Settled()
    }

    /** Between events: whatever has not been started is waiting for one of `limit` running tasks. */
    ghost predicate Launched()
      reads this
    {
      !stop && i < length ==> running == Max(0, limit)
    }

    /** `_loopLaunch`. */
    method LoopLaunch()
      requires InOrder() && Bounded() && calls == [] && !stop && length > 0
      requires InFlight(tasks) == 0 ==> i < length
      modifies this
      ensures InOrder() && Bounded() && Launched() && calls == [] && !stop
      ensures InFlight(tasks) == 0 ==> i < length
      ensures i == Min(length, old(i) + Max(0, limit - old(running)))
      ensures old(tasks) <= tasks && forall k :: old(i) <= k < i ==> tasks[k] == Running
    {
      while !stop && i < length && running < limit
        invariant InOrder() && Bounded() && calls == [] && !stop
        invariant InFlight(tasks) == 0 ==> i < length
        invariant i - old(i) == running - old(running) >= 0
        invariant running <= Max(limit, old(running))
        invariant old(tasks) <= tasks && forall k :: old(i) <= k < i ==> tasks[k] == Running
        decreases length - i
      {
        running := running + 1;
        var index := i;
        i := i + 1;
        Launch(index);
      }
    }

    /** `_launch`: the task is under way and will call `Done` or `Catch` later. */
    method Launch(index: int)
      modifies `started, `tasks
      ensures started == old(started) + [index]
      ensures tasks == old(tasks) + [Running] && InFlight(tasks) == old(InFlight(tasks)) + 1
    {
      InFlightSnoc(tasks);
      started, tasks := started + [index], tasks + [Running];
    }

    /** `_done`: task `index` finished. */
    method Done(index: nat)
      requires Valid() && Launched() && index < |tasks| && tasks[index] == Running
      modifies this
      ensures Valid() && Launched()
      ensures old(stop) ==> i == old(i) && stop && running == old(running) && calls == old(calls)
      ensures !old(stop) ==> !stop && i == Min(length, old(i) + 1)
      ensures old(tasks)[index := Finished] <= tasks
      ensures forall k :: old(i) <= k < i ==> tasks[k] == Running
    {
      InFlightUpdate(tasks, index, Finished);
      assert tasks[index := Finished][index] == Finished;
      StillFailed(index);
      tasks := tasks[index := Finished];
      if !stop {
        running := running - 1;
        if i >= length && running == 0 {
          calls := calls + [Resolve];
        } else {
          LoopLaunch();
        }
      }
    }

    lemma StillFailed(index: nat)
      requires index < |tasks| && tasks[index] == Running
      ensures Failed in tasks[index := Finished] <==> Failed in tasks
    {
      if Failed in tasks {
        var k :| 0 <= k < |tasks| && tasks[k] == Failed;
        assert tasks[index := Finished][k] == Failed;
      }
    }

    /** `_catch`: task `index` failed. */
    method Catch(index: nat)
      requires Valid() && Launched() && index < |tasks| && tasks[index] == Running
      modifies this
      ensures Valid() && Launched() && stop
      ensures i == old(i) && tasks == old(tasks)[index := Failed]
    {
      InFlightUpdate(tasks, index, Failed);
      assert tasks[index := Failed][index] == Failed;
      tasks := tasks[index := Failed];
      stop := true;
      calls := calls + [Reject];
    }

    /** Nothing gets stuck: with a limit of at least one, a promise without a call has a task in flight,
        and unstarted work means that all `limit` slots are taken. */
    lemma NeverStalls()
      requires Valid() && Launched() && limit >= 1
      ensures calls == [] ==> Running in tasks
      ensures calls == [] && i < length ==> InFlight(tasks) == limit
      ensures calls != [] && calls[0] == Resolve ==>
                i == Max(0, length) && forall k :: 0 <= k < i ==> tasks[k] == Finished
    {
      InFlightNone(tasks);
    }
  }

  /** What a finished or failed task reports. */
  datatype Event = Settle(index: nat, ok: bool)

  // ----- parallelLimit -----

  /** `results[k] = v`: writing past the end leaves holes. */
  function WriteAt<T>(results: seq<Option<T>>, k: nat, v: T): (r: seq<Option<T>>)
    ensures k < |r| && r[k] == Some(v) && |r| >= |results|
    ensures forall q :: 0 <= q < |r| && q != k ==> r[q] == if q < |results| then results[q] else None
  {
    if k < |results| then results[k := Some(v)]
    else results + seq(k - |results|, _ => None) + [Some(v)]
  }

  class ParallelList<S, T> {
    const list: seq<S>
    const iter: (S, nat) -> T
    const scheduler: Scheduler
    var results: seq<Option<T>>

    constructor (list: seq<S>, limit: int, iter: (S, nat) -> T)
      ensures this.list == list && this.iter == iter && scheduler.limit == limit && fresh(scheduler) && Valid()
      ensures scheduler.i == Max(0, Min(|list|, limit))
    {
      this.list, this.iter, results := list, iter, [];
      scheduler := new Scheduler(|list|, limit);
    }

    /** Exactly the finished tasks have left their results, each in its own place. */
    ghost predicate Valid()
      reads this, scheduler
    {
      && scheduler.length == |list| && scheduler.Valid() && scheduler.Launched()
      && |results| <= |scheduler.tasks|
      && (results != [] ==> results[|results| - 1].Some?)
      && forall k :: 0 <= k < |scheduler.tasks| ==>
           if scheduler.tasks[k] == Finished then k < |results| && results[k] == Some(iter(list[k], k))
           else k < |results| ==> results[k] == None
    }

    /** Task `index` is over: on success its result is stored before the scheduler hears of it. */
    method Settle(event: Event)
      requires Valid() && event.index < |scheduler.tasks| && scheduler.tasks[event.index] == Running
      modifies this, scheduler
      ensures Valid()
    {
      var k := event.index;
      if event.ok {
        results := WriteAt(results, k, iter(list[k], k));
        scheduler.Done(k);
      } else {
        scheduler.Catch(k);
      }
    }

    /** Whatever the order in which the tasks finished, the list the promise resolves with holds the
        result of item `k` at `k`. */
    lemma Results()
      requires Valid() && scheduler.calls != [] && scheduler.calls[0] == Resolve
      ensures |results| == |list| && forall k :: 0 <= k < |list| ==> results[k] == Some(iter(list[k], k))
    {
      InFlightNone(scheduler.tasks);
      assert forall k :: 0 <= k < |list| ==> scheduler.tasks[k] == Finished;
      if list != [] {
        assert scheduler.tasks[|list| - 1] == Finished;
      }
    }
  }

  /** Any order of completion and failure; events for tasks that are not in flight are passed over.
      With a limit of at least one the promise is settled as soon as no task is in flight, and if it is
      resolved all results are in place. With a lower limit nothing is ever started. */
  method Run<S, T>(list: seq<S>, limit: int, iter: (S, nat) -> T, schedule: seq<Event>)
    returns (run: ParallelList<S, T>)
    ensures run.list == list && run.iter == iter && run.scheduler.limit == limit && run.Valid()
    ensures limit >= 1 && Running !in run.scheduler.tasks ==> run.scheduler.calls != []
    ensures limit < 1 ==> run.scheduler.started == [] && (run.scheduler.calls == [] <==> list != [])
    ensures
      run.scheduler.calls != [] && run.scheduler.calls[0] == Resolve ==>
        run.results == seq(|list|, k requires 0 <= k < |list| => Some(iter(list[k], k)))
  {
    run := new ParallelList(list, limit, iter);
    for n := 0 to |schedule|
      invariant run.list == list && run.iter == iter && run.scheduler.limit == limit
      invariant fresh(run) && fresh(run.scheduler) && run.Valid()
      invariant limit < 1 ==> run.scheduler.i == 0
    {
      var event := schedule[n];
      if event.index < |run.scheduler.tasks| && run.scheduler.tasks[event.index] == Running {
        run.Settle(event);
      }
    }
    if limit >= 1 {
      run.scheduler.NeverStalls();
    }
    if run.scheduler.calls != [] && run.scheduler.calls[0] == Resolve {
      run.Results();
    }
  }

  // ----- parallelBatch -----

  /** `Math.ceil(length / batchSize)`. */
  function BatchCount(length: nat, batchSize: nat): nat
    requires batchSize > 0
  {
    (length + batchSize - 1) / batchSize
  }

  /** `list.slice(start, start + batchSize)`. */
  function Batch<S>(list: seq<S>, batchSize: nat, i: nat): seq<S> {
    var start := Min(i * batchSize, |list|);
    list[start..Min(start + batchSize, |list|)]
  }

  function Batches<S>(list: seq<S>, batchSize: nat, count: nat): seq<S> {
    if count == 0 then [] else Batches(list, batchSize, count - 1) + Batch(list, batchSize, count - 1)
  }

  lemma {:induction false} BatchesPrefix<S>(list: seq<S>, batchSize: nat, count: nat)
    ensures Batches(list, batchSize, count) == list[..Min(count * batchSize, |list|)]
  {
    if count > 0 {
      BatchesPrefix(list, batchSize, count - 1);
      var start := (count - 1) * batchSize;
      assert count * batchSize == start + batchSize;
      NextBatch(list, start, batchSize);
    }
  }

  lemma NextBatch<S>(list: seq<S>, start: nat, batchSize: nat)
    ensures
      var cut, end := Min(start, |list|), Min(start + batchSize, |list|);
      list[..cut] + list[cut..Min(cut + batchSize, |list|)] == list[..end]
  {
  }

  /** The batches, one after the other, are the list; every one has `batchSize` items but for the last,
      which has at least one. */
  lemma BatchesPartition<S>(list: seq<S>, batchSize: nat)
    requires batchSize > 0
    ensures
      var count := BatchCount(|list|, batchSize);
      && Batches(list, batchSize, count) == list
      && forall i :: 0 <= i < count ==>
           var batch := Batch(list, batchSize, i);
           && 0 < |batch| <= batchSize
           && (i < count - 1 ==> |batch| == batchSize)
  {
    hide BatchCount;
    var count := BatchCount(|list|, batchSize);
    CeilBounds(|list|, batchSize);
    BatchesPrefix(list, batchSize, count);
    forall i | 0 <= i < count
      ensures
        var batch := Batch(list, batchSize, i);
        0 < |batch| <= batchSize && (i < count - 1 ==> |batch| == batchSize)
    {
      BatchSize(list, batchSize, count, i);
    }
  }

  lemma BatchSize<S>(list: seq<S>, batchSize: nat, count: nat, i: nat)
    requires i < count && (count - 1) * batchSize < |list| && batchSize > 0
    ensures
      var batch := Batch(list, batchSize, i);
      0 < |batch| <= batchSize && (i < count - 1 ==> |batch| == batchSize)
  {
    TimesMonotone(i, count - 1, batchSize);
    if i < count - 1 {
      TimesMonotone(i + 1, count - 1, batchSize);
      assert (i + 1) * batchSize == i * batchSize + batchSize;
    }
  }

  lemma TimesMonotone(a: nat, b: nat, n: nat)
    requires a <= b
    ensures a * n <= b * n
  {
    assert b * n == a * n + (b - a) * n;
  }

  lemma CeilBounds(length: nat, batchSize: nat)
    requires batchSize > 0
    ensures
      var count := BatchCount(length, batchSize);
      count * batchSize >= length && (count > 0 ==> (count - 1) * batchSize < length)
  {
    var n := length + batchSize - 1;
    var count := n / batchSize;
    assert n == count * batchSize + n % batchSize;
    assert (count - 1) * batchSize == count * batchSize - batchSize;
  }
}
