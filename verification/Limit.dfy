/** LIMIT over a stream of batches. */
module Limit {
  import opened Common

  /** `[offset, ] count`, as the parser hands it over. */
  datatype Clause = CountOnly(count: nat) | CommaPair(offset: nat, count: nat) | WithOffset(count: nat, offset: nat)

  function Skip(clause: Clause): nat {
    match clause
    case CountOnly(_) => 0
    case CommaPair(offset, _) => offset
    case WithOffset(_, offset) => offset
  }

  /** Whether more is pulled once `n` rows have been. */
  predicate Wanted(n: nat, clause: Clause) {
    n < Skip(clause) + clause.count || (clause.count == 0 && n == Skip(clause))
  }

  /** `s[from, from + count)`, as far as it goes. */
  function Slice<T>(s: seq<T>, from: nat, count: nat): seq<T> {
    s[Min(from, |s|)..Min(from + count, |s|)]
  }

  /** What is left to skip and to send after some rows. */
  predicate Counters<T>(seen: seq<T>, clause: Clause, skipCount: nat, sendCount: nat) {
    && skipCount == (if |seen| <= Skip(clause) then Skip(clause) - |seen| else 0)
    && sendCount == clause.count - |Slice(seen, Skip(clause), clause.count)|
  }

  lemma NextBatch<T>(seen: seq<T>, batch: seq<T>, clause: Clause, skipCount: nat, sendCount: nat)
    requires Counters(seen, clause, skipCount, sendCount) && Wanted(|seen|, clause)
    ensures
      var cut := Slice(batch, skipCount, sendCount);
      && Slice(seen + batch, Skip(clause), clause.count) == Slice(seen, Skip(clause), clause.count) + cut
      && Counters(seen + batch, clause, if skipCount >= |batch| then skipCount - |batch| else 0, sendCount - |cut|)
      && (skipCount >= |batch| ==> cut == [])
      && (Wanted(|seen + batch|, clause) <==> sendCount - |cut| > 0 || skipCount >= |batch|)
  {
    var from, count := Skip(clause), clause.count;
    if |seen| <= from {
      SliceBehind(seen, batch, from, count);
    } else {
      SliceAcross(seen, batch, from, count);
    }
    hide Slice;
  }

  lemma SliceBehind<T>(a: seq<T>, b: seq<T>, from: nat, count: nat)
    requires |a| <= from
    ensures Slice(a, from, count) == [] && Slice(a + b, from, count) == Slice(b, from - |a|, count)
  {
    var i, k := Min(from - |a|, |b|), Min(from - |a| + count, |b|);
    assert (a + b)[|a| + i..|a| + k] == b[i..k];
  }

  lemma CutAcross<T>(a: seq<T>, b: seq<T>, from: nat, k: nat)
    requires from <= |a| && k <= |b|
    ensures (a + b)[from..|a| + k] == a[from..] + b[..k]
  {
  }

  lemma SliceAcross<T>(a: seq<T>, b: seq<T>, from: nat, count: nat)
    requires from <= |a| <= from + count
    ensures Slice(a, from, count) == a[from..]
    ensures Slice(a + b, from, count) == a[from..] + Slice(b, 0, from + count - |a|)
  {
    var k := Min(from + count - |a|, |b|);
    CutAcross(a, b, from, k);
  }

  /** `_makeLimit`. The batches together hold the slice of the input that the clause asks for. A batch is
      pulled only while rows are still wanted; LIMIT 0, which wants none, pulls as far as the first row
      that it would not skip. */
  method MakeLimit<T>(batches: seq<seq<T>>, clause: Clause) returns (output: seq<seq<T>>, pulled: nat)
    ensures Flatten(output) == Slice(Flatten(batches), Skip(clause), clause.count)
    ensures pulled <= |batches|
    ensures pulled > 0 ==> Wanted(|Flatten(batches[..pulled - 1])|, clause)
    ensures pulled < |batches| ==> !Wanted(|Flatten(batches[..pulled])|, clause)
  {
    hide Flatten, Slice, Wanted, Counters;
    var skipCount: nat, sendCount: nat := Skip(clause), clause.count;
    output, pulled := [], 0;
    NothingYet(batches, clause);
    while pulled < |batches|
      invariant pulled <= |batches|
      invariant Flatten(output) == Slice(Flatten(batches[..pulled]), Skip(clause), clause.count)
      invariant Counters(Flatten(batches[..pulled]), clause, skipCount, sendCount)
      invariant Wanted(|Flatten(batches[..pulled])|, clause)
      invariant pulled > 0 ==> Wanted(|Flatten(batches[..pulled - 1])|, clause)
    {
      var batch := batches[pulled];
      assert batches[..pulled + 1] == batches[..pulled] + [batch];
      FlattenSnoc(batches[..pulled], batch);
      NextBatch(Flatten(batches[..pulled]), batch, clause, skipCount, sendCount);
      assert Flatten(output) + [] == Flatten(output);
      pulled := pulled + 1;
      if skipCount >= |batch| {
        skipCount := skipCount - |batch|;
      } else {
        CutIsSlice(batch, skipCount, sendCount);
        if skipCount > 0 {
          batch := batch[skipCount..];
          skipCount := 0;
        }
        if sendCount >= |batch| {
          sendCount := sendCount - |batch|;
        } else {
          batch := batch[..sendCount];
          sendCount := 0;
        }
        FlattenSnoc(output, batch);
        output := output + [batch];
        if sendCount == 0 {
          FlattenConcat(batches[..pulled], batches[pulled..]);
          assert batches == batches[..pulled] + batches[pulled..];
          NotWanted(Flatten(batches[..pulled]), Flatten(batches[pulled..]), clause);
          return;
        }
      }
    }
    assert batches[..pulled] == batches;
  }

  lemma NothingYet<T>(batches: seq<seq<T>>, clause: Clause)
    ensures
      var none: seq<seq<T>> := [];
      var seen := Flatten(batches[..0]);
      && Flatten(none) == Slice(seen, Skip(clause), clause.count) && Wanted(|seen|, clause)
      && Counters(seen, clause, Skip(clause), clause.count)
  {
  }

  /** Cutting off the front and then the back of a batch. */
  lemma CutIsSlice<T>(batch: seq<T>, skipCount: nat, sendCount: nat)
    requires skipCount < |batch|
    ensures
      var rest := if skipCount > 0 then batch[skipCount..] else batch;
      Slice(batch, skipCount, sendCount) == if sendCount >= |rest| then rest else rest[..sendCount]
  {
  }

  lemma NotWanted<T>(seen: seq<T>, rest: seq<T>, clause: Clause)
    requires !Wanted(|seen|, clause)
    ensures Slice(seen + rest, Skip(clause), clause.count) == Slice(seen, Skip(clause), clause.count)
  {
  }
}
