/** `filterInPlace`: compacts an array to the elements a callback keeps. */
module FilterInPlace {

  /** The elements with a true verdict, in order. */
  function Kept<T>(s: seq<T>, verdicts: seq<bool>): seq<T>
    requires |verdicts| == |s|
  {
    if s == [] then [] else
      var n := |s| - 1;
      Kept(s[..n], verdicts[..n]) + (if verdicts[n] then [s[n]] else [])
  }

  lemma KeptNone<T>()
    ensures Kept<T>([], []) == []
  {
  }

  /** One more verdict. */
  lemma KeptNext<T>(s: seq<T>, n: nat, verdicts: seq<bool>, verdict: bool)
    requires n < |s| && |verdicts| == n
    ensures Kept(s[..n + 1], verdicts + [verdict]) == Kept(s[..n], verdicts) + (if verdict then [s[n]] else [])
  {
    assert s[..n + 1][..n] == s[..n] && (verdicts + [verdict])[..n] == verdicts;
  }

  /** The callback may read the heap, but not the array being compacted. Returns the new length. */
  method FilterInPlace<T>(arr: array<T>, keep: T ~> bool) returns (length: nat, ghost verdicts: seq<bool>)
    requires forall i :: 0 <= i < arr.Length ==> keep.requires(arr[i]) && arr !in keep.reads(arr[i])
    modifies arr
    ensures |verdicts| == arr.Length
    ensures forall i :: 0 <= i < arr.Length ==> verdicts[i] == old(keep(arr[i]))
    ensures length <= arr.Length && arr[..length] == Kept(old(arr[..]), verdicts)
  {
    hide Kept;
    KeptNone<T>();
    var writeIndex := 0;
    ghost var all := arr[..];
    verdicts := [];
    for readIndex := 0 to arr.Length
      invariant writeIndex <= readIndex == |verdicts|
      invariant forall i :: readIndex <= i < arr.Length ==> arr[i] == all[i]
      invariant forall i :: 0 <= i < readIndex ==> verdicts[i] == old(keep(arr[i]))
      invariant arr[..writeIndex] == Kept(all[..readIndex], verdicts)
    {
      var kept := keep(arr[readIndex]);
      KeptNext(all, readIndex, verdicts, kept);
      verdicts := verdicts + [kept];
      if kept {
        arr[writeIndex] := arr[readIndex];
        writeIndex := writeIndex + 1;
      }
    }
    assert all[..arr.Length] == all;
    length := writeIndex;
  }
}
