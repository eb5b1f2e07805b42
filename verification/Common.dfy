/** Options, and facts about sequences and numbers that several modules use. */
module Common {

  datatype Option<+T> = None | Some(value: T)

  function Min(a: int, b: int): int {
    if a <= b then a else b
  }

  function Max(a: int, b: int): int {
    if a >= b then a else b
  }

  ghost predicate Distinct<T>(s: seq<T>) {
    forall i, k :: 0 <= i < k < |s| ==> s[i] != s[k]
  }

  lemma NoneDistinct<T>(s: seq<T>)
    ensures Distinct(s[..0])
  {
  }

  /** One more element keeps a sequence distinct iff it is new. */
  lemma DistinctGrow<T>(s: seq<T>, i: nat)
    requires i < |s|
    ensures Distinct(s[..i]) && s[i] !in s[..i] ==> Distinct(s[..i + 1])
    ensures s[i] in s[..i] ==> !Distinct(s)
  {
    if Distinct(s[..i]) && s[i] !in s[..i] {
      var front, now := s[..i], s[..i + 1];
      forall a, b | 0 <= a < b < |now|
        ensures now[a] != now[b]
      {
        assert now[a] == front[a] && (b < i ==> now[b] == front[b]);
      }
    }
    if s[i] in s[..i] {
      var a :| 0 <= a < i && s[..i][a] == s[i];
      assert s[a] == s[i];
    }
  }

  lemma DistinctConcat<T>(a: seq<T>, b: seq<T>)
    requires Distinct(a) && Distinct(b) && forall x :: x in a ==> x !in b
    ensures Distinct(a + b)
  {
    forall i, k | 0 <= i < |a| && 0 <= k < |b|
      ensures a[i] != b[k]
    {
      assert a[i] in a && b[k] in b;
    }
  }

  /** Batches, one after the other. */
  function Flatten<T>(batches: seq<seq<T>>): seq<T> {
    if batches == [] then [] else batches[0] + Flatten(batches[1..])
  }

  lemma {:induction false} FlattenConcat<T>(a: seq<seq<T>>, b: seq<seq<T>>)
    ensures Flatten(a + b) == Flatten(a) + Flatten(b)
  {
    if a == [] {
      assert a + b == b;
    } else {
      assert (a + b)[1..] == a[1..] + b;
      FlattenConcat(a[1..], b);
    }
  }

  lemma FlattenSnoc<T>(batches: seq<seq<T>>, last: seq<T>)
    ensures Flatten(batches + [last]) == Flatten(batches) + last
  {
    FlattenConcat(batches, [last]);
    FlattenOne(last);
  }

  lemma FlattenOne<T>(batch: seq<T>)
    ensures Flatten([batch]) == batch
  {
    assert [batch][1..] == [];
  }
}
