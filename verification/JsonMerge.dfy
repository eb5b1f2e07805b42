/** JSON_MERGE_PATCH and JSON_MERGE_PRESERVE. */
module JsonMerge {
  import opened Common
  import opened Utf16
  import opened Json
  import opened JsonContains

  // ----- Merge patch, as section 2 of RFC 7396 has it -----

  function MembersOf(doc: Doc): map<Text, Doc> {
    if doc.Object? then doc.members else map[]
  }

  /** A member, or, if there is none, a value that is not an object. */
  function Member(members: map<Text, Doc>, key: Text): Doc {
    if key in members then members[key] else Nothing
  }

  /** MergePatch(Target, Patch): a null member of the patch removes, any other is applied to the member
      of the same name. */
  function Patched(target: Doc, patch: Doc): Doc
    decreases patch
  {
    if !patch.Object? then patch else
      var base := MembersOf(target);
      Object(map key | key in base.Keys + patch.members.Keys &&
             (key in patch.members ==> patch.members[key] != Nothing) ::
               if key in patch.members then Patched(Member(base, key), patch.members[key]) else base[key])
  }

  /** `_mergePatch`: the members of the patch are applied one after the other, in any order. */
  method MergePatch(target: Doc, patch: Doc) returns (result: Doc)
    ensures result == Patched(target, patch)
    decreases patch
  {
    if !patch.Object? {
      return patch;
    }
    var base := MembersOf(target);
    var merged, todo := base, patch.members.Keys;
    while todo != {}
      invariant todo <= patch.members.Keys
      invariant forall key :: key in todo || key !in patch.members ==>
                  (key in merged <==> key in base) && (key in merged ==> merged[key] == base[key])
      invariant forall key :: key in patch.members && key !in todo ==>
                  && (key in merged <==> patch.members[key] != Nothing)
                  && (key in merged ==> merged[key] == Patched(Member(base, key), patch.members[key]))
    {
      var key :| key in todo;
      var value := patch.members[key];
      if value == Nothing {
        merged := merged - {key};
      } else {
        var member := MergePatch(Member(merged, key), value);
        merged := merged[key := member];
      }
      todo := todo - {key};
    }
    assert merged == Patched(target, patch).members;
    result := Object(merged);
  }

  /** Applying a patch twice is applying it once. */
  lemma {:induction false} PatchIdempotent(target: Doc, patch: Doc)
    ensures Patched(Patched(target, patch), patch) == Patched(target, patch)
    decreases patch
  {
    if patch.Object? {
      var once, twice := Patched(target, patch).members, Patched(Patched(target, patch), patch).members;
      forall key | key in once
        ensures key in twice && twice[key] == once[key]
      {
        if key in patch.members {
          PatchIdempotent(Member(MembersOf(target), key), patch.members[key]);
        }
      }
      assert twice.Keys == once.Keys;
    }
  }

  /** What a document holds at the end of `keys`, following object members only. */
  function MemberAt(doc: Doc, keys: seq<Text>): Option<Doc>
    decreases |keys|
  {
    if keys == [] then Some(doc)
    else if doc.Object? && keys[0] in doc.members then MemberAt(doc.members[keys[0]], keys[1..])
    else None
  }

  /** The patch goes some way along `keys` through objects, and then does not name the next member. */
  predicate Leaves(patch: Doc, keys: seq<Text>)
    decreases |keys|
  {
    patch.Object? && keys != [] &&
    (keys[0] !in patch.members || Leaves(patch.members[keys[0]], keys[1..]))
  }

  /** Members the patch does not name, at any depth, are what they were in the target, or still missing. */
  lemma {:induction false} PatchKeepsOthers(target: Doc, patch: Doc, keys: seq<Text>)
    requires Leaves(patch, keys)
    ensures MemberAt(Patched(target, patch), keys) == MemberAt(target, keys)
    decreases |keys|
  {
    var base := MembersOf(target);
    if keys[0] in patch.members {
      PatchKeepsOthers(Member(base, keys[0]), patch.members[keys[0]], keys[1..]);
    }
  }

  /** Following object members only, a document holds null at the end of `keys`. */
  predicate NullAt(doc: Doc, keys: seq<Text>) {
    MemberAt(doc, keys) == Some(Nothing)
  }

  /** No null member comes from the patch, at any depth outside arrays: wherever the result has one the
      target has it too. */
  lemma {:induction false} PatchAddsNoNull(target: Doc, patch: Doc, keys: seq<Text>)
    requires keys != [] && NullAt(Patched(target, patch), keys)
    ensures NullAt(target, keys)
    decreases |keys|
  {
    var key, rest, base := keys[0], keys[1..], MembersOf(target);
    assert patch.Object?;
    if key in patch.members {
      assert patch.members[key] != Nothing;
      assert Patched(target, patch).members[key] == Patched(Member(base, key), patch.members[key]);
      assert MemberAt(Patched(target, patch), keys) == MemberAt(Patched(target, patch).members[key], rest);
      assert rest != [];
      PatchAddsNoNull(Member(base, key), patch.members[key], rest);
    }
  }

  /** A null in the patch removes: the member is gone from the result. */
  lemma {:induction false} PatchRemoves(target: Doc, patch: Doc, keys: seq<Text>)
    requires keys != [] && NullAt(patch, keys)
    ensures MemberAt(Patched(target, patch), keys).None?
    decreases |keys|
  {
    assert MemberAt(patch, keys) == MemberAt(patch.members[keys[0]], keys[1..]);
    if |keys| > 1 {
      PatchRemoves(Member(MembersOf(target), keys[0]), patch.members[keys[0]], keys[1..]);
    }
  }

  // ----- Merge preserve -----

  /** `_mergePreserve`, as a function. */
  function Merged(left: Doc, right: Doc): Doc
    decreases right
  {
    if left.Object? && right.Object? then
      Object(map key | key in left.members.Keys + right.members.Keys ::
               if key !in right.members then left.members[key]
               else if key in left.members then Merged(left.members[key], right.members[key])
               else right.members[key])
    else Array(ItemsOf(left) + ItemsOf(right))
  }

  /** `_mergePreserve`: the members of the right document join a copy of the left one. */
  method MergePreserve(left: Doc, right: Doc) returns (result: Doc)
    ensures result == Merged(left, right)
    decreases right
  {
    if !left.Object? || !right.Object? {
      return Array(ItemsOf(left) + ItemsOf(right));
    }
    var merged, todo := left.members, right.members.Keys;
    while todo != {}
      invariant todo <= right.members.Keys
      invariant merged.Keys == left.members.Keys + (right.members.Keys - todo)
      invariant forall key :: key in merged ==>
                  merged[key] ==
                  if key !in right.members || key in todo then left.members[key]
                  else if key in left.members then Merged(left.members[key], right.members[key])
                  else right.members[key]
    {
      var key :| key in todo;
      var value := right.members[key];
      if key in merged {
        value := MergePreserve(merged[key], value);
      }
      merged, todo := merged[key := value], todo - {key};
    }
    assert merged == Merged(left, right).members;
    result := Object(merged);
  }

  /** An array contains every document whose items are a slice of it. */
  lemma ContainsPart(whole: seq<Doc>, doc: Doc, offset: nat)
    requires offset + |ItemsOf(doc)| <= |whole|
    requires forall i :: 0 <= i < |ItemsOf(doc)| ==> whole[offset + i] == ItemsOf(doc)[i]
    ensures Contains(Array(whole), doc)
  {
    forall i | 0 <= i < |ItemsOf(doc)|
      ensures SomeItem(Array(whole), ItemsOf(doc)[i])
    {
      Reflexive(ItemsOf(doc)[i]);
      assert Contains(whole[offset + i], ItemsOf(doc)[i]);
    }
    if !doc.Array? {
      assert ItemsOf(doc)[0] == doc;
    }
  }

  /** A merged document contains both of its parts. */
  lemma {:induction false} MergedContains(left: Doc, right: Doc)
    ensures Contains(Merged(left, right), left) && Contains(Merged(left, right), right)
    decreases right
  {
    var merged := Merged(left, right);
    if left.Object? && right.Object? {
      forall key | key in merged.members
        ensures key in left.members ==> Contains(merged.members[key], left.members[key])
        ensures key in right.members ==> Contains(merged.members[key], right.members[key])
      {
        if key in left.members && key in right.members {
          MergedContains(left.members[key], right.members[key]);
        } else {
          Reflexive(merged.members[key]);
        }
      }
    } else {
      var front, back := ItemsOf(left), ItemsOf(right);
      ContainsPart(front + back, left, 0);
      ContainsPart(front + back, right, |front|);
    }
  }

  /** JSON_MERGE_PRESERVE of any number of documents, left to right. */
  function MergeAll(docs: seq<Doc>): Doc
    requires docs != []
  {
    var n := |docs| - 1;
    if n == 0 then docs[0] else Merged(MergeAll(docs[..n]), docs[n])
  }

  /** The result contains every one of the documents. */
  lemma {:induction false} MergeAllContains(docs: seq<Doc>, i: nat)
    requires i < |docs|
    ensures Contains(MergeAll(docs), docs[i])
  {
    var n := |docs| - 1;
    if n == 0 {
      Reflexive(docs[0]);
    } else {
      MergedContains(MergeAll(docs[..n]), docs[n]);
      if i < n {
        MergeAllContains(docs[..n], i);
        Transitive(MergeAll(docs), MergeAll(docs[..n]), docs[i]);
      }
    }
  }
}
