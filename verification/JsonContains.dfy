/** JSON_CONTAINS. */
module JsonContains {
  import opened Json

  /** `_contains`. */
  predicate Contains(target: Doc, candidate: Doc)
    decreases candidate, target, 1
  {
    if candidate.Array? then
      target.Array? && forall i :: 0 <= i < |candidate.items| ==> SomeItem(target, candidate.items[i])
    else if target.Array? then
      SomeItem(target, candidate)
    else if candidate.Object? then
      target.Object? &&
      forall key :: key in candidate.members ==>
        key in target.members && Contains(target.members[key], candidate.members[key])
    else target == candidate
  }

  predicate SomeItem(target: Doc, candidate: Doc)
    requires target.Array?
    decreases candidate, target, 0
  {
    exists k :: 0 <= k < |target.items| && Contains(target.items[k], candidate)
  }

  lemma {:induction false} Reflexive(doc: Doc)
    ensures Contains(doc, doc)
  {
    match doc
    case Array(items) =>
      forall i | 0 <= i < |items|
        ensures SomeItem(doc, items[i])
      {
        Reflexive(items[i]);
      }
    case Object(members) =>
      forall key | key in members
        ensures Contains(members[key], members[key])
      {
        Reflexive(members[key]);
      }
    case _ =>
  }

  /** JSON_CONTAINS is a preorder on documents. */
  lemma {:induction false} Transitive(a: Doc, b: Doc, c: Doc)
    requires Contains(a, b) && Contains(b, c)
    ensures Contains(a, c)
    decreases c, b, a
  {
    if c.Array? {
      forall j | 0 <= j < |c.items|
        ensures SomeItem(a, c.items[j])
      {
        assert SomeItem(b, c.items[j]);
        var i :| 0 <= i < |b.items| && Contains(b.items[i], c.items[j]);
        assert SomeItem(a, b.items[i]);
        var k :| 0 <= k < |a.items| && Contains(a.items[k], b.items[i]);
        Transitive(a.items[k], b.items[i], c.items[j]);
      }
    } else if b.Array? {
      var i :| 0 <= i < |b.items| && Contains(b.items[i], c);
      assert SomeItem(a, b.items[i]);
      var k :| 0 <= k < |a.items| && Contains(a.items[k], b.items[i]);
      Transitive(a.items[k], b.items[i], c);
    } else if a.Array? {
      var k :| 0 <= k < |a.items| && Contains(a.items[k], b);
      Transitive(a.items[k], b, c);
    } else if c.Object? {
      forall key | key in c.members
        ensures key in a.members && Contains(a.members[key], c.members[key])
      {
        Transitive(a.members[key], b.members[key], c.members[key]);
      }
    }
  }
}
