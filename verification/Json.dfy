/** JSON documents, path steps, and reading a document along a path. */
module Json {
  import opened Common
  import opened Utf16

  datatype Doc =
    | Nothing
    | Bool(b: bool)
    | Num(n: int)
    | Str(s: Text)
    | Array(items: seq<Doc>)
    | Object(members: map<Text, Doc>)

  /** An array index, counted from the front or back from the last item. */
  datatype Bound = Bound(index: nat, fromLast: bool)

  datatype Segment = Key(key: Text) | Index(at: Bound) | Range(first: Bound, last: Bound)

  type Path = seq<Segment>

  function ArrayIndex(b: Bound, length: nat): int {
    if b.fromLast then length - 1 - b.index else b.index
  }

  /** A value that is not an array behaves as a one-element array. */
  function ItemsOf(node: Doc): seq<Doc> {
    if node.Array? then node.items else [node]
  }

  /** `_select`: everything a path reaches, in order. */
  function Select(node: Doc, path: Path): seq<Doc>
    decreases |path|, 0
  {
    if path == [] then [node] else
      var segment, rest := path[0], path[1..];
      if segment.Key? then
        if node.Object? && segment.key in node.members then Select(node.members[segment.key], rest) else []
      else
        var items := ItemsOf(node);
        var first := if segment.Index? then segment.at else segment.first;
        var last := if segment.Index? then segment.at else segment.last;
        SelectEach(items, Max(0, ArrayIndex(first, |items|)), Min(|items| - 1, ArrayIndex(last, |items|)), rest)
  }

  /** The items from `start` to `end`, read one after the other. */
  function SelectEach(items: seq<Doc>, start: nat, end: int, rest: Path): seq<Doc>
    requires end < |items|
    decreases |rest|, 1, end - start + 1
  {
    if start > end then [] else Select(items[start], rest) + SelectEach(items, start + 1, end, rest)
  }

  /** `_lookup`. */
  function Lookup(node: Doc, path: Path): Option<Doc> {
    var found := Select(node, path);
    if found == [] then None else Some(found[0])
  }

  // ----- Paths without ranges: one child at a time -----

  predicate Single(path: Path) {
    forall i :: 0 <= i < |path| ==> !path[i].Range?
  }

  /** The index a step resolves to at a node. */
  function Resolved(node: Doc, segment: Segment): int
    requires segment.Index?
  {
    ArrayIndex(segment.at, |ItemsOf(node)|)
  }

  /** The step reads a value that is not an array as its own only item. */
  predicate Wraps(node: Doc, segment: Segment) {
    segment.Index? && !node.Array?
  }

  function Child(node: Doc, segment: Segment): Option<Doc>
    requires !segment.Range?
  {
    match segment
    case Key(key) => if node.Object? && key in node.members then Some(node.members[key]) else None
    case Index(_) =>
      var i := Resolved(node, segment);
      if 0 <= i < |ItemsOf(node)| then Some(ItemsOf(node)[i]) else None
  }

  /** Reading along a path without ranges: at most one node is reached. */
  lemma {:induction false} LookupStep(node: Doc, path: Path)
    requires Single(path)
    ensures |Select(node, path)| <= 1
    ensures Lookup(node, path) ==
            if path == [] then Some(node)
            else if Child(node, path[0]).None? then None
            else Lookup(Child(node, path[0]).value, path[1..])
    decreases |path|
  {
    if path != [] {
      var segment, rest := path[0], path[1..];
      if segment.Key? {
        if node.Object? && segment.key in node.members {
          LookupStep(node.members[segment.key], rest);
        }
      } else {
        var items, i := ItemsOf(node), Resolved(node, segment);
        if 0 <= i < |items| {
          LookupStep(items[i], rest);
          SelectOne(items, i, rest);
        }
      }
    }
  }

  lemma SelectOne(items: seq<Doc>, i: nat, rest: Path)
    requires i < |items|
    ensures SelectEach(items, i, i, rest) == Select(items[i], rest)
  {
    assert SelectEach(items, i + 1, i, rest) == [];
  }

  lemma {:induction false} LookupConcat(node: Doc, p: Path, q: Path)
    requires Single(p) && Single(q)
    ensures Single(p + q)
    ensures Lookup(node, p + q) ==
            if Lookup(node, p).Some? then Lookup(Lookup(node, p).value, q) else None
    decreases |p|
  {
    LookupStep(node, p);
    LookupStep(node, p + q);
    if p == [] {
      assert p + q == q;
    } else {
      assert (p + q)[1..] == p[1..] + q;
      if Child(node, p[0]).Some? {
        LookupConcat(Child(node, p[0]).value, p[1..], q);
      }
    }
  }

  /** A range reads the items it covers, first to last, and each of them as its own index would. */
  lemma {:induction false} RangeIsIndexes(node: Doc, first: Bound, last: Bound, rest: Path)
    ensures
      var n := |ItemsOf(node)|;
      Select(node, [Range(first, last)] + rest) ==
      ConcatIndexes(node, Max(0, ArrayIndex(first, n)), Min(n - 1, ArrayIndex(last, n)), rest)
  {
    var n := |ItemsOf(node)|;
    assert ([Range(first, last)] + rest)[1..] == rest;
    EachIsIndexes(node, Max(0, ArrayIndex(first, n)), Min(n - 1, ArrayIndex(last, n)), rest);
  }

  ghost function ConcatIndexes(node: Doc, start: nat, end: int, rest: Path): seq<Doc>
    decreases end - start + 1
  {
    if start > end then [] else
      Select(node, [Index(Bound(start, false))] + rest) + ConcatIndexes(node, start + 1, end, rest)
  }

  lemma {:induction false} EachIsIndexes(node: Doc, start: nat, end: int, rest: Path)
    requires end < |ItemsOf(node)|
    ensures SelectEach(ItemsOf(node), start, end, rest) == ConcatIndexes(node, start, end, rest)
    decreases end - start + 1
  {
    if start <= end {
      var one := [Index(Bound(start, false))] + rest;
      assert one[0] == Index(Bound(start, false)) && one[1..] == rest;
      SelectOne(ItemsOf(node), start, rest);
      EachIsIndexes(node, start + 1, end, rest);
    }
  }
}
