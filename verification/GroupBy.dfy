/** GROUP BY: a trie of nested objects, one level for each grouping expression. */
module GroupBy {
  import opened Common
  import opened JoinSpec

  /** The rows with the given keys, in order. */
  function RowsWith(rows: seq<Source>, keyOf: Source -> seq<string>, keys: seq<string>): seq<Source> {
    if rows == [] then [] else
      var n := |rows| - 1;
      RowsWith(rows[..n], keyOf, keys) + (if keyOf(rows[n]) == keys then [rows[n]] else [])
  }

  lemma RowsWithSnoc(rows: seq<Source>, row: Source, keyOf: Source -> seq<string>, keys: seq<string>)
    ensures RowsWith(rows + [row], keyOf, keys) ==
            RowsWith(rows, keyOf, keys) + (if keyOf(row) == keys then [row] else [])
  {
    assert (rows + [row])[..|rows|] == rows;
  }

  lemma {:induction false} RowsWithMember(rows: seq<Source>, keyOf: Source -> seq<string>, keys: seq<string>,
                                          row: Source)
    ensures row in RowsWith(rows, keyOf, keys) <==> row in rows && keyOf(row) == keys
  {
    if rows != [] {
      var n := |rows| - 1;
      assert rows == rows[..n] + [rows[n]];
      RowsWithMember(rows[..n], keyOf, keys, row);
    }
  }

  lemma {:induction false} RowsWithNone(rows: seq<Source>, keyOf: Source -> seq<string>, keys: seq<string>)
    requires forall row :: row in rows ==> keyOf(row) != keys
    ensures RowsWith(rows, keyOf, keys) == []
  {
    if rows != [] {
      var n := |rows| - 1;
      assert rows[n] in rows;
      RowsWithNone(rows[..n], keyOf, keys);
    }
  }

  /** One object of the trie, or, at the last level, an array of rows. */
  class Level {
    const isArray: bool
    var kids: map<string, Level>
    var rows: seq<Source>

    constructor (isArray: bool)
      ensures this.isArray == isArray && kids == map[] && rows == []
    {
      this.isArray, kids, rows := isArray, map[], [];
    }
  }

  datatype Group = Group(head: Source, rows: seq<Source>)

  ghost predicate Used(rows: seq<Source>, keyOf: Source -> seq<string>, paths: seq<seq<string>>) {
    forall i :: 0 <= i < |paths| ==> RowsWith(rows, keyOf, paths[i]) != []
  }

  ghost function GroupsOf(rows: seq<Source>, keyOf: Source -> seq<string>, paths: seq<seq<string>>): seq<Group>
    requires Used(rows, keyOf, paths)
  {
    seq(|paths|, i requires 0 <= i < |paths| =>
      Group(RowsWith(rows, keyOf, paths[i])[0], RowsWith(rows, keyOf, paths[i])))
  }

  lemma GroupsConcat(rows: seq<Source>, keyOf: Source -> seq<string>, a: seq<seq<string>>, b: seq<seq<string>>)
    requires Used(rows, keyOf, a) && Used(rows, keyOf, b)
    ensures Used(rows, keyOf, a + b)
    ensures GroupsOf(rows, keyOf, a + b) == GroupsOf(rows, keyOf, a) + GroupsOf(rows, keyOf, b)
  {
    hide RowsWith;
  }

  class GroupMap {
    const count: nat
    const keyOf: Source -> seq<string>
    const root: Level

    // The level each key prefix leads to, and the rows grouped so far.
    ghost var levels: map<seq<string>, Level>
    ghost var seen: seq<Source>

    constructor (count: nat, keyOf: Source -> seq<string>)
      ensures this.count == count && this.keyOf == keyOf && seen == []
      ensures Trie() && Reached() && Leaves() && fresh(levels.Values)
    {
      this.count, this.keyOf := count, keyOf;
      var top := new Level(false);
      root, levels, seen := top, map[[] := top], [];
    }

    static ghost predicate ClosedUnder(prefixes: set<seq<string>>) {
      forall p :: p in prefixes && p != [] ==> p[..|p| - 1] in prefixes
    }

    /** Every prefix of a path is a path. */
    ghost predicate Closed()
      reads `levels
    {
      ClosedUnder(levels.Keys)
    }

    static ghost predicate ShapedUnder(levels: map<seq<string>, Level>, root: Level, count: nat) {
      && [] in levels && levels[[]] == root
      && forall p :: p in levels ==> |p| <= count && levels[p].isArray == (p != [] && |p| == count)
    }

    /** Only full paths lead to arrays. */
    ghost predicate Shaped()
      reads `levels
    {
      ShapedUnder(levels, root, count)
    }

    /** The levels hang together as the paths say. */
    ghost predicate Linked()
      reads `levels, levels.Values`kids
    {
      forall p, k :: p in levels ==>
        (k in levels[p].kids <==> p + [k] in levels) && (k in levels[p].kids ==> levels[p].kids[k] == levels[p + [k]])
    }

    static ghost predicate SeparateUnder(levels: map<seq<string>, Level>) {
      forall p, q :: p in levels && q in levels && levels[p] == levels[q] ==> p == q
    }

    /** No two paths share a level. */
    ghost predicate Separate()
      reads `levels
    {
      SeparateUnder(levels)
    }

    ghost predicate Trie()
      reads `levels, levels.Values`kids
    {
      Closed() && Shaped() && Linked() && Separate()
    }

    /** Exactly the prefixes of the rows' keys lead anywhere; those of `extra` may, too. */
    static ghost predicate Reach(prefixes: set<seq<string>>, seen: seq<Source>, count: nat,
                                 keyOf: Source -> seq<string>, extra: seq<string>) {
      && (forall p :: p in prefixes && p != [] ==> p <= extra || exists row :: row in seen && p <= keyOf(row))
      && (forall row :: row in seen ==> |keyOf(row)| == count && keyOf(row) in prefixes)
    }

    ghost predicate Reached()
      reads this
    {
      Reach(levels.Keys, seen, count, keyOf, [])
    }

    /** An array holds the rows with its keys. */
    ghost predicate Leaves()
      reads `levels, `seen, levels.Values`rows
    {
      forall p :: p in levels && levels[p].isArray ==> levels[p].rows == RowsWith(seen, keyOf, p)
    }

    ghost predicate Valid()
      reads this, levels.Values
    {
      Trie() && Reached() && Leaves()
    }

    /** `obj[key] ??= ...`: a new level below the one that `path` leads to. */
    method Grow(obj: Level, key: string, isLast: bool, ghost path: seq<string>)
      requires Trie() && Leaves() && path in levels && levels[path] == obj && |path| < count
      requires key !in obj.kids && isLast == (|path| + 1 == count)
      requires isLast ==> RowsWith(seen, keyOf, path + [key]) == []
      modifies `levels, obj`kids
      ensures Trie() && Leaves()
      ensures key in obj.kids && fresh(obj.kids[key]) && levels == old(levels)[path + [key] := obj.kids[key]]
    {
      hide RowsWith, Linked, ClosedUnder, ShapedUnder, SeparateUnder;
      var next := new Level(isLast);
      OnlyHere(path, obj);
      ClosedNext(path, key, next);
      ShapedNext(levels, root, count, path, key, next);
      SeparateNext(levels, path + [key], next);
      Attach(obj, key, next, path);
      assert Leaves();
    }

    static lemma ShapedNext(levels: map<seq<string>, Level>, root: Level, count: nat, path: seq<string>, key: string,
                            next: Level)
      requires ShapedUnder(levels, root, count) && |path| < count && next.isArray == (|path| + 1 == count)
      ensures ShapedUnder(levels[path + [key] := next], root, count)
    {
    }

    static lemma SeparateNext(levels: map<seq<string>, Level>, path: seq<string>, next: Level)
      requires SeparateUnder(levels) && next !in levels.Values
      ensures SeparateUnder(levels[path := next])
    {
    }

    lemma ClosedNext(path: seq<string>, key: string, next: Level)
      requires Closed() && path in levels
      ensures ClosedUnder(levels[path + [key] := next].Keys)
    {
      assert (path + [key])[..|path|] == path;
    }

    method Attach(obj: Level, key: string, next: Level, ghost path: seq<string>)
      requires Trie() && path in levels && levels[path] == obj && key !in obj.kids
      requires next !in levels.Values && next.kids == map[]
      modifies `levels, obj`kids
      ensures Linked() && path + [key] !in old(levels)
      ensures levels == old(levels)[path + [key] := next] && obj.kids == old(obj.kids)[key := next]
    {
      hide Shaped, ClosedUnder;
      assert path + [key] !in levels;
      Unlinked(path, key);
      OnlyHere(path, obj);
      obj.kids := obj.kids[key := next];
      levels := levels[path + [key] := next];
      forall p, k | p in levels
        ensures k in levels[p].kids <==> p + [k] in levels
        ensures k in levels[p].kids ==> levels[p].kids[k] == levels[p + [k]]
      {
        SamePath(p, k, path, key);
      }
    }

    lemma SamePath(p: seq<string>, k: string, path: seq<string>, key: string)
      ensures p + [k] == path + [key] <==> p == path && k == key
      ensures p + [k] != p
    {
      assert (p + [k])[..|p|] == p && (p + [k])[|p|] == k;
      assert (path + [key])[..|path|] == path && (path + [key])[|path|] == key;
    }

    /** Nothing hangs below a path that leads nowhere. */
    lemma Unlinked(path: seq<string>, key: string)
      requires Closed() && path + [key] !in levels
      ensures forall k :: path + [key] + [k] !in levels
    {
      forall k
        ensures path + [key] + [k] !in levels
      {
        var p := path + [key] + [k];
        assert p[..|p| - 1] == path + [key];
      }
    }

    /** One level down, which is made if it is not there. */
    method Descend(obj: Level, keys: seq<string>, i: nat) returns (next: Level)
      requires Trie() && Leaves() && Reach(levels.Keys, seen, count, keyOf, keys)
      requires i < |keys| == count && keys[..i] in levels && levels[keys[..i]] == obj
      modifies `levels, levels.Values
      ensures Trie() && Leaves() && Reach(levels.Keys, seen, count, keyOf, keys)
      ensures keys[..i + 1] in levels && levels[keys[..i + 1]] == next
      ensures fresh(levels.Values - old(levels.Values))
    {
      hide RowsWith, Trie, Leaves, Reach;
      var key := keys[i];
      assert keys[..i + 1] == keys[..i] + [key];
      KidAt(keys[..i], key);
      if key !in obj.kids {
        if i + 1 == count {
          assert keys[..i + 1] == keys;
          NewKeys(keys);
        }
        ghost var before := levels.Keys;
        ReachMore(before, seen, count, keyOf, keys, keys[..i + 1]);
        Grow(obj, key, i + 1 == count, keys[..i]);
        assert levels.Keys == before + {keys[..i + 1]};
      }
      KidAt(keys[..i], key);
      next := obj.kids[key];
    }

    /** Sorts one row into the trie. */
    method Insert(row: Source)
      requires Valid() && |keyOf(row)| == count
      modifies this, levels.Values
      ensures Valid() && seen == old(seen) + [row] && fresh(levels.Values - old(levels.Values))
    {
      hide RowsWith, Trie, Leaves, Reach;
      var keys := keyOf(row);
      var obj := root;
      RootFound(keys);
      for i := 0 to count
        invariant Trie() && Leaves() && Reach(levels.Keys, seen, count, keyOf, keys) && seen == old(seen)
        invariant keys[..i] in levels && levels[keys[..i]] == obj
        invariant fresh(levels.Values - old(levels.Values))
      {
        obj := Descend(obj, keys, i);
      }
      assert keys[..count] == keys;
      Push(obj, row);
    }

    lemma RootFound(keys: seq<string>)
      requires Valid()
      ensures [] in levels && levels[[]] == root && Reach(levels.Keys, seen, count, keyOf, keys)
    {
    }

    lemma KidAt(p: seq<string>, key: string)
      requires Trie() && p in levels
      ensures levels[p] in levels.Values
      ensures key in levels[p].kids <==> p + [key] in levels
      ensures key in levels[p].kids ==> levels[p].kids[key] == levels[p + [key]]
    {
    }

    lemma NewKeys(keys: seq<string>)
      requires Reach(levels.Keys, seen, count, keyOf, keys) && keys !in levels
      ensures RowsWith(seen, keyOf, keys) == []
    {
      RowsWithNone(seen, keyOf, keys);
    }

    static lemma ReachMore(prefixes: set<seq<string>>, seen: seq<Source>, count: nat, keyOf: Source -> seq<string>,
                           keys: seq<string>, p: seq<string>)
      requires Reach(prefixes, seen, count, keyOf, keys) && p <= keys
      ensures Reach(prefixes + {p}, seen, count, keyOf, keys)
    {
    }

    /** The row joins the array its keys lead to; without any keys it goes nowhere. */
    method Push(obj: Level, row: Source)
      requires Trie() && Leaves() && Reach(levels.Keys, seen, count, keyOf, keyOf(row))
      requires |keyOf(row)| == count && keyOf(row) in levels && levels[keyOf(row)] == obj
      modifies `seen, obj`rows
      ensures Valid() && seen == old(seen) + [row]
    {
      hide RowsWith, Linked, Reach, Separate, Shaped, Leaves, ClosedUnder;
      OnlyHere(keyOf(row), obj);
      ghost var before, arrays := seen, Contents();
      WhatLeavesHold();
      if obj.isArray {
        obj.rows := obj.rows + [row];
      }
      seen := seen + [row];
      assert forall p :: p in levels && levels[p].isArray ==>
               levels[p].rows == arrays[p] + (if p == keyOf(row) then [row] else []);
      LeavesHold(before, row, arrays);
      ReachPushed(levels.Keys, before, count, keyOf, row);
      assert Closed() && Shaped() && Separate();
      assert Linked();
      assert Reached();
    }

    /** What the arrays hold, by path. */
    ghost function Contents(): map<seq<string>, seq<Source>>
      reads `levels, levels.Values`rows
    {
      map p | p in levels :: levels[p].rows
    }

    lemma OnlyHere(keys: seq<string>, obj: Level)
      requires Separate() && keys in levels && levels[keys] == obj
      ensures forall p :: p in levels && levels[p] == obj ==> p == keys
    {
    }

    lemma WhatLeavesHold()
      requires Leaves()
      ensures forall p :: p in levels && levels[p].isArray ==> Contents()[p] == RowsWith(seen, keyOf, p)
    {
    }

    lemma LeavesHold(before: seq<Source>, row: Source, arrays: map<seq<string>, seq<Source>>)
      requires seen == before + [row] && arrays.Keys == levels.Keys
      requires forall p :: p in levels && levels[p].isArray ==> arrays[p] == RowsWith(before, keyOf, p)
      requires forall p :: p in levels && levels[p].isArray ==>
                 levels[p].rows == arrays[p] + (if p == keyOf(row) then [row] else [])
      ensures Leaves()
    {
      hide RowsWith;
      forall p | p in levels && levels[p].isArray
        ensures levels[p].rows == RowsWith(seen, keyOf, p)
      {
        RowsWithSnoc(before, row, keyOf, p);
      }
    }

    static lemma ReachPushed(prefixes: set<seq<string>>, seen: seq<Source>, count: nat, keyOf: Source -> seq<string>,
                             row: Source)
      requires Reach(prefixes, seen, count, keyOf, keyOf(row)) && |keyOf(row)| == count && keyOf(row) in prefixes
      ensures Reach(prefixes, seen + [row], count, keyOf, [])
    {
      var more := seen + [row];
      assert row in more;
      forall p | p in prefixes && p != []
        ensures exists r :: r in more && p <= keyOf(r)
      {
        if !(p <= keyOf(row)) {
          var r :| r in seen && p <= keyOf(r);
          assert r in more;
        }
      }
    }

    // ----- Unrolling the trie -----

    /** `paths` are the full paths that start with `p`. */
    ghost predicate Below(p: seq<string>, paths: seq<seq<string>>)
      reads `levels
    {
      Distinct(paths) && forall q :: q in paths <==> q in levels && levels[q].isArray && p <= q
    }

    /** The group of a path that leads to an array has a row. */
    lemma NotEmpty(p: seq<string>)
      requires Valid() && p in levels && levels[p].isArray
      ensures levels[p].rows == RowsWith(seen, keyOf, p) != []
    {
      var row :| row in seen && p <= keyOf(row);
      assert p == keyOf(row);
      RowsWithMember(seen, keyOf, p, row);
    }

    /** `_unroll`: one group for each array, depth first. */
    method Unroll(list: GroupList, obj: Level, ghost p: seq<string>) returns (ghost paths: seq<seq<string>>)
      requires Valid() && p in levels && levels[p] == obj
      modifies list
      ensures Below(p, paths) && Used(seen, keyOf, paths)
      ensures list.groups == old(list.groups) + GroupsOf(seen, keyOf, paths)
      decreases count - |p|
    {
      hide RowsWith, Linked, Separate, Reach, Leaves, ClosedUnder, GroupsOf, Used, Below, PartBelow, Shaped;
      if obj.isArray {
        NotEmpty(p);
        list.groups := list.groups + [Group(obj.rows[0], obj.rows)];
        paths := [p];
        OnlyItself(p);
      } else {
        paths := [];
        var todo := obj.kids.Keys;
        KidsBelow(p, todo, paths);
        while todo != {}
          invariant todo <= obj.kids.Keys && PartBelow(p, todo, paths)
          invariant Used(seen, keyOf, paths)
          invariant list.groups == old(list.groups) + GroupsOf(seen, keyOf, paths)
        {
          var key :| key in todo;
          KidAt(p, key);
          Deeper(p, key);
          ghost var more := Unroll(list, obj.kids[key], p + [key]);
          PartNext(p, key, todo, paths, more);
          GroupsConcat(seen, keyOf, paths, more);
          paths, todo := paths + more, todo - {key};
        }
        KidsBelow(p, todo, paths);
      }
    }

    lemma Deeper(p: seq<string>, key: string)
      requires Shaped() && p in levels && p + [key] in levels
      ensures |p| < count && |p + [key]| <= count
    {
    }

    /** The full paths below `p`, but for those through the keys in `todo`. */
    ghost predicate PartBelow(p: seq<string>, todo: set<string>, paths: seq<seq<string>>)
      reads `levels
    {
      && Distinct(paths)
      && forall q :: q in paths <==> q in levels && levels[q].isArray && p <= q && |q| > |p| && q[|p|] !in todo
    }

    lemma OnlyItself(p: seq<string>)
      requires Valid() && p in levels && levels[p].isArray
      ensures Below(p, [p]) && Used(seen, keyOf, [p])
      ensures GroupsOf(seen, keyOf, [p]) == [Group(levels[p].rows[0], levels[p].rows)]
    {
      hide RowsWith, Linked, Reach, ClosedUnder;
      NotEmpty(p);
      forall q | q in levels && p <= q
        ensures p == q
      {
        assert |q| <= count;
      }
    }

    lemma KidsBelow(p: seq<string>, todo: set<string>, paths: seq<seq<string>>)
      requires Trie() && p in levels && !levels[p].isArray
      ensures todo == levels[p].kids.Keys && paths == [] ==> PartBelow(p, todo, paths)
      ensures todo == {} && PartBelow(p, todo, paths) ==> Below(p, paths)
      ensures paths == [] ==> Used(seen, keyOf, paths) && GroupsOf(seen, keyOf, paths) == []
    {
      hide ClosedUnder;
      forall q | q in levels && levels[q].isArray && p <= q
        ensures |q| > |p| && q[|p|] in levels[p].kids
      {
        PrefixIn(q, |p| + 1);
        assert q[..|p| + 1] == p + [q[|p|]];
      }
    }

    /** Every prefix of a path is a path. */
    lemma {:induction false} PrefixIn(q: seq<string>, n: nat)
      requires Closed() && q in levels && n <= |q|
      ensures q[..n] in levels
      decreases |q|
    {
      if n < |q| {
        PrefixIn(q[..|q| - 1], n);
        assert q[..|q| - 1][..n] == q[..n];
      } else {
        assert q[..n] == q;
      }
    }

    lemma PartNext(p: seq<string>, key: string, todo: set<string>, paths: seq<seq<string>>, more: seq<seq<string>>)
      requires PartBelow(p, todo, paths) && key in todo && Below(p + [key], more)
      ensures PartBelow(p, todo - {key}, paths + more)
    {
      forall q
        ensures p + [key] <= q <==> p <= q && |q| > |p| && q[|p|] == key
      {
        if p <= q && |q| > |p| && q[|p|] == key {
          assert q[..|p| + 1] == p + [key];
        }
      }
      forall i, k | 0 <= i < |paths| && 0 <= k < |more|
        ensures paths[i] != more[k]
      {
        assert paths[i] in paths && more[k] in more;
      }
    }
  }

  class GroupList {
    var groups: seq<Group>

    constructor ()
      ensures groups == []
    {
      groups := [];
    }
  }

  /** `formGroup`: one group for each list of key strings that occurs, holding the rows that have it, in
      the order of the input; without grouping expressions every row is lost. */
  method FormGroup(rows: seq<Source>, count: nat, keyOf: Source -> seq<string>)
    returns (groups: seq<Group>, ghost keys: seq<seq<string>>)
    requires forall row :: row in rows ==> |keyOf(row)| == count
    ensures |keys| == |groups| && Distinct(keys)
    ensures forall i :: 0 <= i < |groups| ==>
              groups[i].rows == RowsWith(rows, keyOf, keys[i]) != [] && groups[i].head == groups[i].rows[0]
    ensures count > 0 ==> forall row :: row in rows ==> keyOf(row) in keys
    ensures count == 0 ==> groups == []
  {
    hide RowsWith, GroupMap.Trie, GroupMap.Reached, GroupMap.Leaves, GroupMap.Below, GroupsOf, Used;
    var trie := new GroupMap(count, keyOf);
    for i := 0 to |rows|
      invariant trie.count == count && trie.keyOf == keyOf && trie.seen == rows[..i]
      invariant trie.Valid() && fresh(trie) && fresh(trie.levels.Values)
    {
      assert rows[i] in rows && rows[..i + 1] == rows[..i] + [rows[i]];
      trie.Insert(rows[i]);
    }
    assert rows[..|rows|] == rows;
    var list := new GroupList();
    trie.RootFound([]);
    keys := trie.Unroll(list, trie.root, []);
    groups := list.groups;
    AllThere(trie, keys);
    GroupsAre(rows, keyOf, keys);
  }

  lemma GroupsAre(rows: seq<Source>, keyOf: Source -> seq<string>, keys: seq<seq<string>>)
    requires Used(rows, keyOf, keys)
    ensures
      var groups := GroupsOf(rows, keyOf, keys);
      && |groups| == |keys|
      && forall i :: 0 <= i < |groups| ==>
           groups[i].rows == RowsWith(rows, keyOf, keys[i]) != [] && groups[i].head == groups[i].rows[0]
  {
    hide RowsWith;
  }

  lemma AllThere(trie: GroupMap, keys: seq<seq<string>>)
    requires trie.Valid() && trie.Below([], keys)
    ensures Distinct(keys)
    ensures trie.count > 0 ==> forall row :: row in trie.seen ==> trie.keyOf(row) in keys
    ensures trie.count == 0 ==> keys == []
  {
    hide RowsWith, GroupMap.Linked, GroupMap.ClosedUnder, GroupMap.Leaves;
    assert trie.count == 0 ==> forall q :: q !in keys;
    assert keys != [] ==> keys[0] in keys;
  }

  // ----- The groups are a partition -----

  ghost function Total(rows: seq<Source>, keyOf: Source -> seq<string>, keys: seq<seq<string>>): multiset<Source> {
    if keys == [] then multiset{} else
      Total(rows, keyOf, keys[..|keys| - 1]) + multiset(RowsWith(rows, keyOf, keys[|keys| - 1]))
  }

  lemma {:induction false} TotalSnoc(rows: seq<Source>, row: Source, keyOf: Source -> seq<string>,
                                     keys: seq<seq<string>>)
    requires Distinct(keys)
    ensures Total(rows + [row], keyOf, keys) ==
            Total(rows, keyOf, keys) + (if keyOf(row) in keys then multiset{row} else multiset{})
  {
    hide RowsWith;
    if keys != [] {
      var n := |keys| - 1;
      TotalSnoc(rows, row, keyOf, keys[..n]);
      RowsWithSnoc(rows, row, keyOf, keys[n]);
      assert keyOf(row) in keys <==> keyOf(row) in keys[..n] || keyOf(row) == keys[n];
    }
  }

  lemma {:induction false} TotalNone(keyOf: Source -> seq<string>, keys: seq<seq<string>>)
    ensures Total([], keyOf, keys) == multiset{}
  {
    if keys != [] {
      TotalNone(keyOf, keys[..|keys| - 1]);
    }
  }

  /** Every row is in exactly one group: the groups together are the rows. */
  lemma {:induction false} GroupsPartition(rows: seq<Source>, keyOf: Source -> seq<string>, keys: seq<seq<string>>)
    requires Distinct(keys) && forall row :: row in rows ==> keyOf(row) in keys
    ensures Total(rows, keyOf, keys) == multiset(rows)
  {
    if rows == [] {
      TotalNone(keyOf, keys);
    } else {
      var n := |rows| - 1;
      assert rows == rows[..n] + [rows[n]];
      GroupsPartition(rows[..n], keyOf, keys);
      TotalSnoc(rows[..n], rows[n], keyOf, keys);
    }
  }

  /** Two rows share a group iff all their key strings agree. */
  lemma SameGroupIffSameKeys(rows: seq<Source>, keyOf: Source -> seq<string>, keys: seq<seq<string>>, a: Source,
                             b: Source)
    requires a in rows && b in rows && keyOf(a) in keys
    ensures (exists i ::
               0 <= i < |keys| && a in RowsWith(rows, keyOf, keys[i]) && b in RowsWith(rows, keyOf, keys[i])) <==>
            keyOf(a) == keyOf(b)
  {
    forall i | 0 <= i < |keys|
      ensures a in RowsWith(rows, keyOf, keys[i]) <==> keyOf(a) == keys[i]
      ensures b in RowsWith(rows, keyOf, keys[i]) <==> keyOf(b) == keys[i]
    {
      RowsWithMember(rows, keyOf, keys[i], a);
      RowsWithMember(rows, keyOf, keys[i], b);
    }
  }
}
