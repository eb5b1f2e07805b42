/** JSON_SEARCH: the paths of all strings in a document that match. */
module JsonSearch {
  import opened Common
  import opened Utf16
  import opened Json
  import opened JsonPath

  /** The node at the end of a path that wraps nowhere. */
  function NodeAt(node: Doc, path: Path): Option<Doc>
    requires Canonical(path)
    decreases |path|
  {
    if path == [] then Some(node) else
      var segment := path[0];
      if segment.Key? then
        if node.Object? && segment.key in node.members then NodeAt(node.members[segment.key], path[1..]) else None
      else
        if node.Array? && segment.at.index < |node.items| then NodeAt(node.items[segment.at.index], path[1..]) else None
  }

  /** A string that matches, and where it is. */
  ghost predicate Leaf(node: Doc, matcher: Text -> bool, path: Path) {
    Canonical(path) && NodeAt(node, path).Some? && NodeAt(node, path).value.Str? && matcher(NodeAt(node, path).value.s)
  }

  /** `paths` names every matching string once, and nothing else. */
  ghost predicate Listing(node: Doc, matcher: Text -> bool, paths: seq<Path>) {
    Distinct(paths) && forall p: Path :: p in paths <==> Leaf(node, matcher, p)
  }

  ghost predicate AllCanonical(paths: seq<Path>) {
    forall i :: 0 <= i < |paths| ==> Canonical(paths[i])
  }

  ghost function Texts(prefix: Text, paths: seq<Path>): seq<Text>
    requires AllCanonical(paths)
  {
    seq(|paths|, i requires 0 <= i < |paths| => prefix + StepsText(paths[i]))
  }

  /** The same paths, one step further out. */
  ghost function Under(step: Segment, paths: seq<Path>): seq<Path> {
    seq(|paths|, i requires 0 <= i < |paths| => [step] + paths[i])
  }

  lemma TextsUnder(prefix: Text, step: Segment, paths: seq<Path>)
    requires AllCanonical(paths) && Canonical([step])
    ensures AllCanonical(Under(step, paths))
    ensures Texts(prefix, Under(step, paths)) == Texts(prefix + StepText(step), paths)
  {
    hide StepText;
    var under := Under(step, paths);
    forall i | 0 <= i < |paths|
      ensures Canonical(under[i])
      ensures prefix + StepsText(under[i]) == prefix + StepText(step) + StepsText(paths[i])
    {
      StepInFront(step, paths[i]);
    }
  }

  lemma StepInFront(step: Segment, path: Path)
    requires Canonical([step]) && Canonical(path)
    ensures Canonical([step] + path) && StepsText([step] + path) == StepText(step) + StepsText(path)
  {
    assert [step][0] == step && ([step] + path)[1..] == path;
  }

  lemma TextsConcat(prefix: Text, a: seq<Path>, b: seq<Path>)
    requires AllCanonical(a) && AllCanonical(b)
    ensures AllCanonical(a + b) && Texts(prefix, a + b) == Texts(prefix, a) + Texts(prefix, b)
  {
  }

  /** The matching strings below one child are those whose path starts with that step. */
  lemma ListingUnder(node: Doc, child: Doc, matcher: Text -> bool, step: Segment, paths: seq<Path>)
    requires Canonical([step]) && NodeAt(node, [step]) == Some(child) && Listing(child, matcher, paths)
    ensures Distinct(Under(step, paths))
    ensures forall p: Path :: p in Under(step, paths) <==> p != [] && p[0] == step && Leaf(node, matcher, p)
  {
    var under := Under(step, paths);
    assert [step][0] == step;
    forall p: Path | p != [] && p[0] == step
      ensures p in under <==> Leaf(node, matcher, p)
    {
      assert p == [step] + p[1..];
      assert Leaf(child, matcher, p[1..]) <==> Leaf(node, matcher, p) by {
        assert Canonical(p) <==> Canonical(p[1..]) by {
          assert forall i :: 1 <= i < |p| ==> p[i] == p[1..][i - 1];
        }
      }
      if p[1..] in paths {
        var i :| 0 <= i < |paths| && paths[i] == p[1..];
        assert under[i] == p;
      }
      if p in under {
        var i :| 0 <= i < |under| && under[i] == p;
        assert paths[i] == p[1..];
      }
    }
    forall i, k | 0 <= i < k < |under|
      ensures under[i] != under[k]
    {
      assert under[i][1..] == paths[i] && under[k][1..] == paths[k];
    }
  }

  /** The list the matches are pushed to. */
  class MatchList {
    var paths: seq<Text>

    constructor ()
      ensures paths == []
    {
      paths := [];
    }
  }

  /** `_collectMatchPaths`: depth first, items in order, members in any order. */
  method CollectMatchPaths(node: Doc, prefix: Text, matcher: Text -> bool, list: MatchList)
    returns (ghost found: seq<Path>)
    modifies list
    ensures Listing(node, matcher, found) && AllCanonical(found)
    ensures list.paths == old(list.paths) + Texts(prefix, found)
    decreases node, 1
  {
    match node
    case Str(s) =>
      found := CollectString(node, prefix, matcher, list);
    case Array(_) =>
      found := CollectItems(node, prefix, matcher, list);
    case Object(_) =>
      found := CollectMembers(node, prefix, matcher, list);
    case _ =>
      found := [];
      forall p: Path
        ensures !Leaf(node, matcher, p)
      {
      }
  }

  method CollectString(node: Doc, prefix: Text, matcher: Text -> bool, list: MatchList)
    returns (ghost found: seq<Path>)
    requires node.Str?
    modifies list
    ensures Listing(node, matcher, found) && AllCanonical(found)
    ensures list.paths == old(list.paths) + Texts(prefix, found)
    decreases node, 0
  {
    forall p: Path
      ensures Leaf(node, matcher, p) <==> p == [] && matcher(node.s)
    {
    }
    found := [];
    if matcher(node.s) {
      list.paths := list.paths + [prefix];
      found := [[]];
      assert prefix + StepsText([]) == prefix;
      assert Texts(prefix, found) == [prefix];
    }
  }

  method CollectItems(node: Doc, prefix: Text, matcher: Text -> bool, list: MatchList)
    returns (ghost found: seq<Path>)
    requires node.Array?
    modifies list
    ensures Listing(node, matcher, found) && AllCanonical(found)
    ensures list.paths == old(list.paths) + Texts(prefix, found)
    decreases node, 0
  {
    hide Leaf, Texts, Under, Canonical;
    found := [];
    NothingListed(prefix);
    for i := 0 to |node.items|
      invariant AllCanonical(found) && list.paths == old(list.paths) + Texts(prefix, found)
      invariant Distinct(found)
      invariant forall p: Path :: p in found <==>
                  p != [] && p[0].Index? && p[0].at.index < i && Leaf(node, matcher, p)
    {
      ghost var step := Index(Bound(i, false));
      ItemAt(node, i);
      ghost var below := CollectMatchPaths(node.items[i], prefix + [OPEN] + Numeral(i) + [CLOSE], matcher, list);
      ListingUnder(node, node.items[i], matcher, step, below);
      TextsUnder(prefix, step, below);
      TextsConcat(prefix, found, Under(step, below));
      assert prefix + StepText(step) == prefix + [OPEN] + Numeral(i) + [CLOSE];
      LeafSteps(node, matcher);
      DistinctConcat(found, Under(step, below));
      found := found + Under(step, below);
    }
    LeafSteps(node, matcher);
  }

  method CollectMembers(node: Doc, prefix: Text, matcher: Text -> bool, list: MatchList)
    returns (ghost found: seq<Path>)
    requires node.Object?
    modifies list
    ensures Listing(node, matcher, found) && AllCanonical(found)
    ensures list.paths == old(list.paths) + Texts(prefix, found)
    decreases node, 0
  {
    hide Leaf, Texts, Under, Canonical, MembersFound, Listing, Distinct, PathKey;
    found := [];
    NothingListed(prefix);
    MembersListed(node, matcher, found);
    var todo := node.members.Keys;
    while todo != {}
      invariant todo <= node.members.Keys
      invariant AllCanonical(found) && list.paths == old(list.paths) + Texts(prefix, found)
      invariant MembersFound(node, matcher, todo, found)
    {
      var key :| key in todo;
      assert todo == todo - {key} + {key};
      todo := todo - {key};
      ghost var below := CollectMatchPaths(node.members[key], prefix + PathKey(key), matcher, list);
      MemberCollected(node, matcher, key, todo, found, below, prefix);
      found := found + Under(Key(key), below);
    }
    MembersListed(node, matcher, found);
  }

  /** The paths found, once the members in `todo` are all that is left. */
  ghost predicate MembersFound(node: Doc, matcher: Text -> bool, todo: set<Text>, found: seq<Path>) {
    && Distinct(found)
    && forall p: Path :: p in found <==> p != [] && p[0].Key? && p[0].key !in todo && Leaf(node, matcher, p)
  }

  /** The paths below one member come after those found so far. */
  lemma MemberCollected(node: Doc, matcher: Text -> bool, key: Text, todo: set<Text>, found: seq<Path>,
                        below: seq<Path>, prefix: Text)
    requires node.Object? && key in node.members && key !in todo && MembersFound(node, matcher, todo + {key}, found)
    requires Listing(node.members[key], matcher, below) && AllCanonical(below) && AllCanonical(found)
    ensures MembersFound(node, matcher, todo, found + Under(Key(key), below)) &&
            AllCanonical(found + Under(Key(key), below))
    ensures Texts(prefix, found + Under(Key(key), below)) == Texts(prefix, found) + Texts(prefix + PathKey(key), below)
  {
    hide Leaf, Texts, Under, MembersFound, Listing, Distinct;
    var step := Key(key);
    MemberAt(node, key);
    ListingUnder(node, node.members[key], matcher, step, below);
    TextsUnder(prefix, step, below);
    TextsConcat(prefix, found, Under(step, below));
    MembersNext(node, matcher, key, todo, found, Under(step, below));
  }

  lemma MembersNext(node: Doc, matcher: Text -> bool, key: Text, todo: set<Text>, found: seq<Path>, more: seq<Path>)
    requires MembersFound(node, matcher, todo + {key}, found) && key !in todo && Distinct(more)
    requires forall p: Path :: p in more <==> p != [] && p[0] == Key(key) && Leaf(node, matcher, p)
    ensures MembersFound(node, matcher, todo, found + more)
  {
    hide Leaf;
    DistinctConcat(found, more);
  }

  lemma MembersListed(node: Doc, matcher: Text -> bool, found: seq<Path>)
    requires node.Object?
    ensures MembersFound(node, matcher, {}, found) ==> Listing(node, matcher, found)
    ensures found == [] ==> MembersFound(node, matcher, node.members.Keys, found)
  {
    hide Leaf;
    LeafSteps(node, matcher);
  }

  lemma NothingListed(prefix: Text)
    ensures Texts(prefix, []) == []
  {
  }

  lemma ItemAt(node: Doc, i: nat)
    requires node.Array? && i < |node.items|
    ensures Canonical([Index(Bound(i, false))])
    ensures NodeAt(node, [Index(Bound(i, false))]) == Some(node.items[i])
  {
  }

  lemma MemberAt(node: Doc, key: Text)
    requires node.Object? && key in node.members
    ensures Canonical([Key(key)]) && NodeAt(node, [Key(key)]) == Some(node.members[key])
  {
  }

  /** How the path of a string below an array or an object begins. */
  lemma LeafSteps(node: Doc, matcher: Text -> bool)
    ensures forall p: Path :: Leaf(node, matcher, p) && node.Array? ==>
              p != [] && p[0].Index? && p[0] == Index(Bound(p[0].at.index, false)) && p[0].at.index < |node.items|
    ensures forall p: Path :: Leaf(node, matcher, p) && node.Object? ==>
            p != [] && p[0].Key? && p[0].key in node.members
  {
  }

  // ----- What the paths are good for -----

  /** All member names in a document read back: no quote, backslash, control character or lone surrogate. */
  predicate CleanDoc(node: Doc) {
    match node
    case Array(items) => forall i :: 0 <= i < |items| ==> CleanDoc(items[i])
    case Object(members) => forall key :: key in members ==> Clean(key) && CleanDoc(members[key])
    case _ => true
  }

  lemma {:induction false} CleanPath(node: Doc, path: Path)
    requires CleanDoc(node) && Canonical(path) && NodeAt(node, path).Some?
    ensures CleanSteps(path)
    decreases |path|
  {
    if path != [] {
      var segment, rest := path[0], path[1..];
      CleanPath(if segment.Key? then node.members[segment.key] else node.items[segment.at.index], rest);
      forall i | 0 <= i < |path| && path[i].Key?
        ensures Clean(path[i].key)
      {
        assert i > 0 ==> path[i] == rest[i - 1];
      }
    }
  }

  /** Reading without wrapping is what `_lookup` reads. */
  lemma {:induction false} NodeAtIsLookup(node: Doc, path: Path)
    requires Canonical(path) && NodeAt(node, path).Some?
    ensures Lookup(node, path) == NodeAt(node, path)
    decreases |path|
  {
    assert Single(path);
    LookupStep(node, path);
    if path != [] {
      var segment := path[0];
      NodeAtIsLookup(if segment.Key? then node.members[segment.key] else node.items[segment.at.index], path[1..]);
    }
  }

  lemma {:induction false} NodeAtConcat(node: Doc, a: Path, b: Path)
    requires Canonical(a) && Canonical(b)
    ensures Canonical(a + b)
    ensures NodeAt(node, a + b) == if NodeAt(node, a).Some? then NodeAt(NodeAt(node, a).value, b) else None
    decreases |a|
  {
    if a == [] {
      assert a + b == b;
    } else {
      assert (a + b)[1..] == a[1..] + b;
      var segment := a[0];
      if segment.Key? && node.Object? && segment.key in node.members {
        NodeAtConcat(node.members[segment.key], a[1..], b);
      } else if segment.Index? && node.Array? && segment.at.index < |node.items| {
        NodeAtConcat(node.items[segment.at.index], a[1..], b);
      }
    }
  }

  /** The text of a match parses, and reading the document along it gives the string that matched. */
  lemma MatchReadsBack(root: Doc, matcher: Text -> bool, path: Path)
    requires CleanDoc(root) && Leaf(root, matcher, path)
    ensures Parse(PathText(path), false) == Ok(path)
    ensures
      var found := Lookup(root, path);
      found.Some? && found.value.Str? && matcher(found.value.s)
  {
    CleanPath(root, path);
    PathTextParses(path, false);
    NodeAtIsLookup(root, path);
  }

  /** Different matches have different texts. */
  lemma MatchTextsDiffer(root: Doc, matcher: Text -> bool, found: seq<Path>, i: nat, k: nat)
    requires CleanDoc(root) && Listing(root, matcher, found) && AllCanonical(found) && i < k < |found|
    ensures PathText(found[i]) != PathText(found[k])
  {
    assert Leaf(root, matcher, found[i]) && Leaf(root, matcher, found[k]) by {
      assert found[i] in found && found[k] in found;
    }
    CleanPath(root, found[i]);
    CleanPath(root, found[k]);
    if PathText(found[i]) == PathText(found[k]) {
      PathTextInjective(found[i], found[k]);
    }
  }

  // ----- Scopes -----

  /** `_locate`: the node a path names, and that path as indexes from the front. */
  function Locate(node: Doc, path: Path, prefix: Text): Option<(Doc, Text)>
    requires Single(path)
    decreases |path|
  {
    if path == [] then Some((node, prefix)) else
      var segment, rest := path[0], path[1..];
      if segment.Key? then
        if node.Object? && segment.key in node.members
        then Locate(node.members[segment.key], rest, prefix + PathKey(segment.key))
        else None
      else if !node.Array? then None
      else
        var i := ArrayIndex(segment.at, |node.items|);
        if 0 <= i < |node.items| then Locate(node.items[i], rest, prefix + [OPEN] + Numeral(i) + [CLOSE]) else None
  }

  /** One step of a scope that is found, through a member ... */
  lemma LocateKey(node: Doc, path: Path, prefix: Text) returns (child: Doc)
    requires Single(path) && path != [] && path[0].Key? && Locate(node, path, prefix).Some?
    ensures Single(path[1..]) && Child(node, path[0]) == Some(child) && Canonical([path[0]]) &&
            Steps(node, path[0], child)
    ensures Locate(node, path, prefix) == Locate(child, path[1..], prefix + StepText(path[0]))
  {
    hide PathKey, Numeral;
    child := node.members[path[0].key];
    assert [path[0]][0] == path[0] && [path[0]][1..] == [];
    assert NodeAt(child, []) == Some(child);
  }

  /** ... and through an item, which the text counts from the front. */
  lemma LocateIndex(node: Doc, path: Path, prefix: Text) returns (i: nat, child: Doc)
    requires Single(path) && path != [] && path[0].Index? && Locate(node, path, prefix).Some?
    ensures Single(path[1..]) && Child(node, path[0]) == Some(child)
    ensures Canonical([Index(Bound(i, false))]) && Steps(node, Index(Bound(i, false)), child)
    ensures Locate(node, path, prefix) == Locate(child, path[1..], prefix + StepText(Index(Bound(i, false))))
  {
    hide PathKey, Numeral;
    i := ArrayIndex(path[0].at, |node.items|);
    child := node.items[i];
    var step := [Index(Bound(i, false))];
    assert step[0] == Index(Bound(i, false)) && step[1..] == [];
    assert NodeAt(child, []) == Some(child);
    assert prefix + StepText(Index(Bound(i, false))) == prefix + [OPEN] + Numeral(i) + [CLOSE];
  }

  /** `step`, which wraps nothing, leads from a node to its child. */
  ghost predicate Steps(node: Doc, step: Segment, child: Doc) {
    Canonical([step]) && NodeAt(node, [step]) == Some(child)
  }

  /** Such a step in front of a path. */
  lemma StepThen(node: Doc, step: Segment, child: Doc, rest: Path)
    requires Steps(node, step, child) && Canonical(rest)
    ensures Canonical([step] + rest) && NodeAt(node, [step] + rest) == NodeAt(child, rest)
    ensures StepsText([step] + rest) == StepText(step) + StepsText(rest)
  {
    hide StepText;
    NodeAtConcat(node, [step], rest);
    StepInFront(step, rest);
  }

  lemma LocateNothing(node: Doc, prefix: Text)
    ensures Single([]) && Locate(node, [], prefix) == Some((node, prefix))
    ensures Canonical([]) && NodeAt(node, []) == Some(node) && StepsText([]) == []
  {
  }

  /** A scope that is found is the node its path reads, and the prefix is the text of an equivalent path. */
  lemma {:induction false} LocateReads(node: Doc, path: Path, prefix: Text) returns (plain: Path)
    requires Single(path) && Locate(node, path, prefix).Some?
    ensures
      var (scope, text) := Locate(node, path, prefix).value;
      && Lookup(node, path) == Some(scope)
      && Canonical(plain) && NodeAt(node, plain) == Some(scope) && text == prefix + StepsText(plain)
    decreases |path|
  {
    hide Steps, Child, StepText, Lookup, Select, Locate, Canonical, NodeAt, StepsText;
    LookupStep(node, path);
    if path == [] {
      LocateNothing(node, prefix);
      plain := [];
    } else {
      var step, child := path[0], node;
      if step.Key? {
        child := LocateKey(node, path, prefix);
      } else {
        var i: nat;
        i, child := LocateIndex(node, path, prefix);
        step := Index(Bound(i, false));
      }
      var below := LocateReads(child, path[1..], prefix + StepText(step));
      StepThen(node, step, child, below);
      plain := [step] + below;
    }
  }

  lemma LeafUnder(root: Doc, plain: Path, node: Doc, matcher: Text -> bool, path: Path)
    requires Canonical(plain) && NodeAt(root, plain) == Some(node) && Leaf(node, matcher, path)
    ensures Leaf(root, matcher, plain + path)
    ensures PathText(plain + path) == [DOLLAR] + StepsText(plain) + StepsText(path)
  {
    hide NodeAt, StepsText, StepText;
    NodeAtConcat(root, plain, path);
    StepsTextConcat(plain, path);
  }

  /** Every match inside the part that `scope` names is among the matches. */
  ghost predicate Covers(root: Doc, scope: Path, matcher: Text -> bool, matches: seq<Path>)
    requires Single(scope)
  {
    var located := Locate(root, scope, [DOLLAR]);
    located.Some? ==>
      forall p: Path :: Leaf(located.value.0, matcher, p) ==>
        exists q :: q in matches && Canonical(q) && PathText(q) == located.value.1 + StepsText(p)
  }

  lemma CoversMore(root: Doc, scope: Path, matcher: Text -> bool, matches: seq<Path>, more: seq<Path>)
    requires Single(scope)
    requires Covers(root, scope, matcher, matches) || Covers(root, scope, matcher, more)
    ensures Covers(root, scope, matcher, matches + more)
  {
    hide Locate, Leaf, Canonical, StepsText;
    var located := Locate(root, scope, [DOLLAR]);
    if located.Some? {
      forall p: Path | Leaf(located.value.0, matcher, p)
        ensures Canonical(p)
        ensures exists q :: q in matches + more && Canonical(q) && PathText(q) == located.value.1 + StepsText(p)
      {
        assert Canonical(p) by {
          LeafIsCanonical(located.value.0, matcher, p);
        }
        var q :| (q in matches || q in more) && Canonical(q) && PathText(q) == located.value.1 + StepsText(p);
        assert q in matches + more;
      }
    }
  }

  lemma LeafIsCanonical(node: Doc, matcher: Text -> bool, path: Path)
    requires Leaf(node, matcher, path)
    ensures Canonical(path)
  {
  }

  /** JSON_SEARCH over the whole document, or over the parts that some paths name. With 'one' only the
      first match is kept. */
  method Search(root: Doc, one: bool, scopes: seq<Path>, matcher: Text -> bool)
    returns (found: seq<Text>, ghost matches: seq<Path>)
    requires forall i :: 0 <= i < |scopes| ==> Single(scopes[i])
    ensures AllCanonical(matches) && forall p: Path :: p in matches ==> Leaf(root, matcher, p)
    ensures found == (if one && matches != [] then [PathText(matches[0])] else Texts([DOLLAR], matches))
    ensures forall t :: t in found ==> exists p: Path :: Leaf(root, matcher, p) && Canonical(p) && PathText(p) == t
    ensures scopes == [] && !one ==>
              forall p: Path :: Leaf(root, matcher, p) ==> Canonical(p) && PathText(p) in found
    ensures scopes == [] ==> Listing(root, matcher, matches)
    ensures forall i :: 0 <= i < |scopes| ==> Covers(root, scopes[i], matcher, matches)
  {
    hide Leaf, Locate, StepsText, Listing, Canonical, Covers;
    var list := new MatchList();
    if scopes == [] {
      matches := CollectMatchPaths(root, [DOLLAR], matcher, list);
      assert forall p: Path :: p in matches ==> Leaf(root, matcher, p) by {
        Listed(root, matcher, matches);
      }
    } else {
      matches := [];
      for i := 0 to |scopes|
        invariant AllCanonical(matches) && forall p: Path :: p in matches ==> Leaf(root, matcher, p)
        invariant list.paths == Texts([DOLLAR], matches)
        invariant forall k :: 0 <= k < i ==> Covers(root, scopes[k], matcher, matches)
      {
        var located := Locate(root, scopes[i], [DOLLAR]);
        NotLocated(root, scopes[i], matcher, matches);
        if located.Some? {
          ghost var below := CollectMatchPaths(located.value.0, located.value.1, matcher, list);
          ghost var more := ScopeMatches(root, scopes[i], matcher, below);
          TextsConcat([DOLLAR], matches, more);
          forall k | 0 <= k <= i
            ensures Covers(root, scopes[k], matcher, matches + more)
          {
            CoversMore(root, scopes[k], matcher, matches, more);
          }
          matches := matches + more;
        }
      }
    }
    found := list.paths;
    Reported(root, matcher, matches);
    if one && |found| > 0 {
      found := found[..1];
      assert Texts([DOLLAR], matches)[0] == PathText(matches[0]);
    }
  }

  /** The texts of some matches are exactly the texts of the strings they lead to. */
  lemma Reported(root: Doc, matcher: Text -> bool, matches: seq<Path>)
    requires AllCanonical(matches) && forall p: Path :: p in matches ==> Leaf(root, matcher, p)
    ensures forall t :: t in Texts([DOLLAR], matches) ==>
              exists p: Path :: Leaf(root, matcher, p) && Canonical(p) && PathText(p) == t
    ensures Listing(root, matcher, matches) ==>
              forall p: Path :: Leaf(root, matcher, p) ==> Canonical(p) && PathText(p) in Texts([DOLLAR], matches)
  {
    hide StepsText, NodeAt;
    var texts := Texts([DOLLAR], matches);
    forall t | t in texts
      ensures exists p: Path :: Leaf(root, matcher, p) && Canonical(p) && PathText(p) == t
    {
      var i :| 0 <= i < |texts| && texts[i] == t;
      assert matches[i] in matches && PathText(matches[i]) == t;
    }
    if Listing(root, matcher, matches) {
      forall p: Path | Leaf(root, matcher, p)
        ensures Canonical(p) && PathText(p) in texts
      {
        var i :| 0 <= i < |matches| && matches[i] == p;
        assert texts[i] == PathText(p);
      }
    }
  }

  lemma Listed(node: Doc, matcher: Text -> bool, found: seq<Path>)
    requires Listing(node, matcher, found)
    ensures forall p: Path :: p in found <==> Leaf(node, matcher, p)
  {
  }

  /** The matches of a scope, as paths from the root. */
  lemma ScopeMatches(root: Doc, scope: Path, matcher: Text -> bool, below: seq<Path>) returns (full: seq<Path>)
    requires Single(scope) && Locate(root, scope, [DOLLAR]).Some?
    requires Listing(Locate(root, scope, [DOLLAR]).value.0, matcher, below) && AllCanonical(below)
    ensures AllCanonical(full) && Texts([DOLLAR], full) == Texts(Locate(root, scope, [DOLLAR]).value.1, below)
    ensures forall p: Path :: p in full ==> Leaf(root, matcher, p)
    ensures Covers(root, scope, matcher, full)
  {
    hide Locate, Leaf, StepsText, Canonical, Single, Listing;
    var (node, text) := Locate(root, scope, [DOLLAR]).value;
    var plain := LocateReads(root, scope, [DOLLAR]);
    Listed(node, matcher, below);
    full := seq(|below|, i requires 0 <= i < |below| => plain + below[i]);
    forall i | 0 <= i < |below|
      ensures Canonical(full[i]) && Leaf(root, matcher, full[i]) && PathText(full[i]) == text + StepsText(below[i])
    {
      assert below[i] in below;
      LeafUnder(root, plain, node, matcher, below[i]);
      LeafIsCanonical(root, matcher, full[i]);
    }
    assert Texts([DOLLAR], full) == Texts(text, below);
    CoversAll(root, scope, matcher, below, full);
  }

  lemma CoversAll(root: Doc, scope: Path, matcher: Text -> bool, below: seq<Path>, full: seq<Path>)
    requires Single(scope) && Locate(root, scope, [DOLLAR]).Some?
    requires Listing(Locate(root, scope, [DOLLAR]).value.0, matcher, below) && AllCanonical(below) && AllCanonical(full)
    requires Texts([DOLLAR], full) == Texts(Locate(root, scope, [DOLLAR]).value.1, below)
    ensures Covers(root, scope, matcher, full)
  {
    hide Locate, Leaf, StepsText, Canonical, Single;
    var (node, text) := Locate(root, scope, [DOLLAR]).value;
    forall p: Path | Leaf(node, matcher, p)
      ensures Canonical(p) && exists q :: q in full && Canonical(q) && PathText(q) == text + StepsText(p)
    {
      assert p in below;
      var i :| 0 <= i < |below| && below[i] == p;
      assert Texts([DOLLAR], full)[i] == Texts(text, below)[i];
      assert full[i] in full;
    }
  }

  lemma NotLocated(root: Doc, scope: Path, matcher: Text -> bool, matches: seq<Path>)
    requires Single(scope)
    ensures Locate(root, scope, [DOLLAR]).None? ==> Covers(root, scope, matcher, matches)
  {
  }
}
