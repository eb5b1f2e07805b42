/** `deepClone`: copying a graph of arrays, maps, sets and plain objects, shared and cyclic parts included. */
module DeepClone {
  import opened Common

  datatype Scalar = Null | Undefined | Bool(b: bool) | Number(n: int) | Text(s: string)

  datatype Val = Prim(p: Scalar) | Ref(node: Node)

  datatype Kind = Array | Map | Set | Object

  /** An element of an array or a set, or an entry of a map or an object. */
  datatype Entry = Item(value: Val) | Pair(key: Val, value: Val)

  class Node {
    const kind: Kind
    var entries: seq<Entry>

    constructor (kind: Kind)
      ensures this.kind == kind && entries == []
    {
      this.kind, entries := kind, [];
    }

    /** `arr.push(v)`. */
    method Push(v: Val)
      modifies this
      ensures entries == old(entries) + [Item(v)]
    {
      entries := entries + [Item(v)];
    }

    /** `set.add(v)`: nothing happens to a set that has `v`. */
    method Add(v: Val)
      modifies this
      ensures entries == if Item(v) in old(entries) then old(entries) else old(entries) + [Item(v)]
    {
      if Item(v) !in entries {
        entries := entries + [Item(v)];
      }
    }

    /** `map.set(k, v)` and `obj[k] = v`: an entry for `k` is overwritten in its place. */
    method Put(k: Val, v: Val)
      requires forall e :: e in entries ==> e.Pair?
      modifies this
      ensures (forall e :: e in old(entries) ==> e.key != k) ==> entries == old(entries) + [Pair(k, v)]
      ensures forall i :: 0 <= i < |old(entries)| ==>
                |entries| >= |old(entries)| &&
                entries[i] == if old(entries)[i].key == k then Pair(k, v) else old(entries)[i]
      ensures (exists e :: e in old(entries) && e.key == k) ==> |entries| == |old(entries)|
    {
      var found := false;
      var updated := [];
      for i := 0 to |entries|
        invariant entries == old(entries) && |updated| == i
        invariant found <==> exists q :: 0 <= q < i && entries[q].key == k
        invariant forall q :: 0 <= q < i ==> updated[q] == if entries[q].key == k then Pair(k, v) else entries[q]
      {
        assert entries[i] in entries;
        if entries[i].key == k {
          found := true;
        }
        updated := updated + [if entries[i].key == k then Pair(k, v) else entries[i]];
      }
      assert !found ==> updated == entries;
      entries := if found then updated else entries + [Pair(k, v)];
    }
  }

  /** What the four kinds of node can hold. */
  ghost predicate WellFormed(n: Node)
    reads n
  {
    match n.kind
    case Array => forall e :: e in n.entries ==> e.Item?
    case Set => (forall e :: e in n.entries ==> e.Item?) && Distinct(n.entries)
    case Map => (forall e :: e in n.entries ==> e.Pair?) && DistinctKeys(n.entries)
    case Object =>
      (forall e :: e in n.entries ==> e.Pair? && e.key.Prim? && e.key.p.Text?) && DistinctKeys(n.entries)
  }

  ghost predicate DistinctKeys(s: seq<Entry>)
    requires forall e :: e in s ==> e.Pair?
  {
    forall i, k :: 0 <= i < k < |s| ==> s[i].key != s[k].key
  }

  ghost predicate Inside(v: Val, all: set<Node>) {
    v.Ref? ==> v.node in all
  }

  ghost predicate EntryInside(e: Entry, all: set<Node>) {
    Inside(e.value, all) && (e.Pair? ==> Inside(e.key, all))
  }

  /** A finite part of the heap that no reference leaves. */
  ghost predicate Closed(all: set<Node>)
    reads all
  {
    forall n :: n in all ==> WellFormed(n) && forall e :: e in n.entries ==> EntryInside(e, all)
  }

  ghost function Image(m: map<Node, Node>, v: Val): Val
    requires Inside(v, m.Keys)
  {
    if v.Ref? then Ref(m[v.node]) else v
  }

  ghost function EntryImage(m: map<Node, Node>, e: Entry): Entry
    requires EntryInside(e, m.Keys)
  {
    match e
    case Item(v) => Item(Image(m, v))
    case Pair(k, v) => Pair(Image(m, k), Image(m, v))
  }

  ghost predicate Copied(m: map<Node, Node>, source: seq<Entry>, copy: seq<Entry>) {
    && |source| == |copy|
    && forall i :: 0 <= i < |source| ==> EntryInside(source[i], m.Keys) && copy[i] == EntryImage(m, source[i])
  }

  ghost predicate Injective(m: map<Node, Node>) {
    forall a, b :: a in m && b in m && m[a] == m[b] ==> a == b
  }

  ghost predicate Extends(m: map<Node, Node>, m': map<Node, Node>) {
    m.Keys <= m'.Keys && forall n :: n in m ==> m'[n] == m[n]
  }

  lemma CopiedExtends(m: map<Node, Node>, m': map<Node, Node>, source: seq<Entry>, copy: seq<Entry>)
    requires Copied(m, source, copy) && Extends(m, m')
    ensures Copied(m', source, copy)
  {
    forall i | 0 <= i < |source|
      ensures EntryInside(source[i], m'.Keys) && copy[i] == EntryImage(m', source[i])
    {
      assert EntryInside(source[i], m.Keys);
    }
  }

  lemma ImageInjective(m: map<Node, Node>, a: Val, b: Val)
    requires Injective(m) && Inside(a, m.Keys) && Inside(b, m.Keys) && a != b
    ensures Image(m, a) != Image(m, b)
  {
  }

  /** Copies of distinct elements are distinct, so adding one to the copy of a set is never a no-op. */
  lemma NotYetCopied(m: map<Node, Node>, source: seq<Entry>, n: nat, copy: seq<Entry>)
    requires Injective(m) && n < |source| && Copied(m, source[..n], copy)
    requires Distinct(source) && forall e :: e in source ==> e.Item?
    requires EntryInside(source[n], m.Keys)
    ensures EntryImage(m, source[n]) !in copy
  {
    forall i | 0 <= i < n
      ensures copy[i] != EntryImage(m, source[n])
    {
      assert source[i] in source && source[n] in source && source[..n][i] == source[i];
      ImageInjective(m, source[i].value, source[n].value);
    }
  }

  /** Copies of distinct keys are distinct, so an entry of the copy of a map is never overwritten. */
  lemma KeyNotYetCopied(m: map<Node, Node>, source: seq<Entry>, n: nat, copy: seq<Entry>)
    requires Injective(m) && n < |source| && Copied(m, source[..n], copy)
    requires forall e :: e in source ==> e.Pair?
    requires DistinctKeys(source) && Inside(source[n].key, m.Keys)
    ensures forall e :: e in copy ==> e.Pair? && e.key != Image(m, source[n].key)
  {
    forall i | 0 <= i < n
      ensures copy[i].Pair? && copy[i].key != Image(m, source[n].key)
    {
      assert source[i] in source && source[n] in source && source[..n][i] == source[i];
      assert EntryInside(source[i], m.Keys);
      ImageInjective(m, source[i].key, source[n].key);
    }
  }

  lemma NothingCopied(m: map<Node, Node>, source: seq<Entry>)
    ensures Copied(m, source[..0], [])
  {
  }

  lemma CopiedNext(m: map<Node, Node>, source: seq<Entry>, n: nat, copy: seq<Entry>)
    requires n < |source| && Copied(m, source[..n], copy) && Inside(source[n].value, m.Keys)
    requires source[n].Pair? ==> Inside(source[n].key, m.Keys)
    ensures EntryInside(source[n], m.Keys)
    ensures Copied(m, source[..n + 1], copy + [EntryImage(m, source[n])])
    ensures
      EntryImage(m, source[n]) ==
      if source[n].Item? then Item(Image(m, source[n].value))
      else Pair(Image(m, source[n].key), Image(m, source[n].value))
  {
    var image := EntryImage(m, source[n]);
    forall i | 0 <= i < n + 1
      ensures EntryInside(source[..n + 1][i], m.Keys) && (copy + [image])[i] == EntryImage(m, source[..n + 1][i])
    {
      assert i < n ==> source[..n + 1][i] == source[..n][i];
    }
  }

  /** An entry of a node, and what its kind says about all of them. */
  lemma EntryOf(node: Node, i: nat, all: set<Node>)
    requires Closed(all) && node in all && i < |node.entries|
    ensures EntryInside(node.entries[i], all) && Inside(node.entries[i].value, all)
    ensures node.entries[i].Pair? ==> Inside(node.entries[i].key, all)
    ensures WellFormed(node)
    ensures node.entries[i].Pair? <==> node.kind == Map || node.kind == Object
    ensures node.kind == Object ==> node.entries[i].key.Prim?
  {
    assert node.entries[i] in node.entries;
  }

  ghost predicate AllFaithful(done: map<Node, Node>, m: map<Node, Node>)
    requires done.Keys <= m.Keys
    reads done.Keys, done.Values
  {
    forall n :: n in done ==> n.kind == done[n].kind && Copied(m, n.entries, done[n].entries)
  }

  /** Whatever is cloned, the map of copies grows, and all new copies are filled. */
  ghost predicate Grows(seen: map<Node, Node>, done: map<Node, Node>, seen': map<Node, Node>, done': map<Node, Node>) {
    && Extends(seen, seen') && Extends(done, done')
    && (forall n :: n in seen' && n !in seen ==> n in done')
    && (forall n :: n in done' && n !in done ==> n !in seen)
  }

  lemma GrowsTransitive(seen: map<Node, Node>, done: map<Node, Node>, seen': map<Node, Node>, done': map<Node, Node>,
                        seen'': map<Node, Node>, done'': map<Node, Node>)
    requires Grows(seen, done, seen', done') && Grows(seen', done', seen'', done'')
    ensures Grows(seen, done, seen'', done'') && seen.Keys <= seen''.Keys
  {
  }

  lemma ImageExtends(m: map<Node, Node>, m': map<Node, Node>, v: Val)
    requires Extends(m, m') && Inside(v, m.Keys)
    ensures Inside(v, m'.Keys) && Image(m', v) == Image(m, v)
  {
  }

  lemma ScalarImage(m: map<Node, Node>, v: Val)
    requires v.Prim?
    ensures Inside(v, m.Keys) && Image(m, v) == v
  {
  }

  class Cloner {
    // The nodes met so far with their copies, and those whose copies are filled.
    var seen: map<Node, Node>
    ghost var done: map<Node, Node>

    constructor ()
      ensures seen == map[] && done == map[]
    {
      seen, done := map[], map[];
    }

    ghost predicate Inv(all: set<Node>)
      reads this, done.Keys, done.Values
    {
      && Injective(seen) && seen.Keys <= all && Extends(done, seen) && AllFaithful(done, seen)
    }

    /** `result` is the empty copy of `node`. */
    ghost predicate Filling(node: Node, result: Node, all: set<Node>)
      reads this, result
    {
      && node in all && node in seen && node !in done && seen[node] == result
      && result.kind == node.kind && result.entries == [] && result !in all
    }

    ghost predicate Filled(node: Node, result: Node)
      reads this, node, result
    {
      && node in seen && node !in done && seen[node] == result
      && result.kind == node.kind && Copied(seen, node.entries, result.entries)
    }

    /** Everything new among the copies has been allocated since. */
    twostate predicate NewCopies()
      reads this
    {
      forall n :: n in seen.Values ==> n in old(seen.Values) || fresh(n)
    }

    method Clone(value: Val, ghost all: set<Node>) returns (copy: Val)
      requires Closed(all) && Inside(value, all) && Inv(all)
      modifies this
      ensures Inv(all) && Grows(old(seen), old(done), seen, done) && NewCopies()
      ensures Inside(value, seen.Keys) && copy == Image(seen, value)
      decreases all - seen.Keys, 1
    {
      NothingGrown(seen, done);
      if value.Prim? {
        return value;
      }
      var node := value.node;
      if node in seen {
        return Ref(seen[node]);
      }
      copy := CloneNode(node, all);
    }

    static lemma NothingGrown(m: map<Node, Node>, d: map<Node, Node>)
      ensures Grows(m, d, m, d)
    {
    }

    method CloneNode(node: Node, ghost all: set<Node>) returns (copy: Val)
      requires Closed(all) && node in all && node !in seen && Inv(all)
      modifies this
      ensures Inv(all) && Grows(old(seen), old(done), seen, done) && NewCopies()
      ensures node in seen && copy == Ref(seen[node])
      decreases all - seen.Keys, 0
    {
      hide Closed, Copied, Injective, AllFaithful, WellFormed, Extends, Grows;
      var result := new Node(node.kind);
      ghost var was, wasDone := seen, done;
      Started(node, result, all);
      seen := seen[node := result];
      assert all - seen.Keys < all - was.Keys by {
        assert node in all - was.Keys;
      }
      match node.kind {
        case Array => CloneArray(node, result, all);
        case Map => CloneMap(node, result, all);
        case Set => CloneSet(node, result, all);
        case Object => CloneObject(node, result, all);
      }
      Finished(node, result, all, was, wasDone);
      done := done[node := result];
      copy := Ref(result);
    }

    lemma Started(node: Node, result: Node, all: set<Node>)
      requires Inv(all) && node in all && node !in seen && result !in seen.Values
      ensures Injective(seen[node := result]) && AllFaithful(done, seen[node := result]) && node !in done
      ensures Extends(done, seen[node := result])
    {
      forall n | n in done
        ensures Copied(seen[node := result], n.entries, done[n].entries)
      {
        CopiedExtends(seen, seen[node := result], n.entries, done[n].entries);
      }
    }

    lemma Finished(node: Node, result: Node, all: set<Node>, was: map<Node, Node>, wasDone: map<Node, Node>)
      requires Inv(all) && Filled(node, result) && node !in was && node !in wasDone
      requires Grows(was[node := result], wasDone, seen, done)
      ensures AllFaithful(done[node := result], seen) && Extends(done[node := result], seen)
      ensures Grows(was, wasDone, seen, done[node := result])
    {
    }

    /** Halfway through filling the copy of `node`. */
    ghost predicate Growing(node: Node, result: Node, all: set<Node>)
      reads this
    {
      node in seen && node !in done && seen[node] == result && result !in all
    }

    lemma StillGrowing(node: Node, result: Node, all: set<Node>, was: map<Node, Node>, wasDone: map<Node, Node>)
      requires node in was && node !in wasDone && was[node] == result && result !in all
      requires Grows(was, wasDone, seen, done) && Inv(all)
      ensures Growing(node, result, all) && result !in done.Keys && result !in done.Values
      ensures Extends(was, seen)
    {
    }

    method CloneBoth(k: Val, v: Val, ghost all: set<Node>) returns (k': Val, v': Val)
      requires Closed(all) && Inside(k, all) && Inside(v, all) && Inv(all)
      modifies this
      ensures Inv(all) && Grows(old(seen), old(done), seen, done) && NewCopies()
      ensures Inside(k, seen.Keys) && k' == Image(seen, k)
      ensures Inside(v, seen.Keys) && v' == Image(seen, v)
      decreases all - seen.Keys, 2
    {
      hide Closed, Copied, Injective, AllFaithful, WellFormed, Image;
      k' := Clone(k, all);
      ghost var was, wasDone := seen, done;
      v' := Clone(v, all);
      GrowsTransitive(old(seen), old(done), was, wasDone, seen, done);
      ImageExtends(was, seen, k);
    }

    method CloneArray(node: Node, result: Node, ghost all: set<Node>)
      requires Closed(all) && Inv(all) && Filling(node, result, all) && node.kind == Array
      modifies this, result
      ensures Inv(all) && Filled(node, result) && NewCopies()
      ensures Grows(old(seen), old(done), seen, done)
      decreases all - seen.Keys, 3
    {
      hide Closed, Copied, Injective, AllFaithful, WellFormed, Image, Extends, EntryImage, EntryInside, Grows;
      ghost var entries := node.entries;
      NothingCopied(seen, entries);
      NothingGrown(seen, done);
      for i := 0 to |node.entries|
        invariant node.entries == entries && Closed(all) && Inv(all) && result.kind == node.kind && NewCopies()
        invariant Grows(old(seen), old(done), seen, done) && Growing(node, result, all) && old(seen).Keys <= seen.Keys
        invariant Copied(seen, entries[..i], result.entries)
      {
        var entry := node.entries[i];
        EntryOf(node, i, all);
        ghost var was, wasDone := seen, done;
        var item := Clone(entry.value, all);
        GrowsTransitive(old(seen), old(done), was, wasDone, seen, done);
        StillGrowing(node, result, all, was, wasDone);
        CopiedExtends(was, seen, entries[..i], result.entries);
        CopiedNext(seen, entries, i, result.entries);
        result.Push(item);
      }
      assert entries[..|entries|] == entries;
    }

    method CloneSet(node: Node, result: Node, ghost all: set<Node>)
      requires Closed(all) && Inv(all) && Filling(node, result, all) && node.kind == Set
      modifies this, result
      ensures Inv(all) && Filled(node, result) && NewCopies()
      ensures Grows(old(seen), old(done), seen, done)
      decreases all - seen.Keys, 3
    {
      hide Closed, Copied, Injective, AllFaithful, WellFormed, Image, Extends, EntryImage, EntryInside, Grows;
      ghost var entries := node.entries;
      NothingCopied(seen, entries);
      NothingGrown(seen, done);
      for i := 0 to |node.entries|
        invariant node.entries == entries && Closed(all) && Inv(all) && result.kind == node.kind && NewCopies()
        invariant Grows(old(seen), old(done), seen, done) && Growing(node, result, all) && old(seen).Keys <= seen.Keys
        invariant Copied(seen, entries[..i], result.entries)
      {
        var entry := node.entries[i];
        EntryOf(node, i, all);
        ghost var was, wasDone := seen, done;
        var item := Clone(entry.value, all);
        GrowsTransitive(old(seen), old(done), was, wasDone, seen, done);
        StillGrowing(node, result, all, was, wasDone);
        CopiedExtends(was, seen, entries[..i], result.entries);
        CopiedNext(seen, entries, i, result.entries);
        NotYetCopied(seen, entries, i, result.entries);
        result.Add(item);
      }
      assert entries[..|entries|] == entries;
    }

    method CloneMap(node: Node, result: Node, ghost all: set<Node>)
      requires Closed(all) && Inv(all) && Filling(node, result, all) && node.kind == Map
      modifies this, result
      ensures Inv(all) && Filled(node, result) && NewCopies()
      ensures Grows(old(seen), old(done), seen, done)
      decreases all - seen.Keys, 3
    {
      hide Closed, Copied, Injective, AllFaithful, WellFormed, Image, Extends, EntryImage, EntryInside, Grows;
      ghost var entries := node.entries;
      NothingCopied(seen, entries);
      NothingGrown(seen, done);
      for i := 0 to |node.entries|
        invariant node.entries == entries && Closed(all) && Inv(all) && result.kind == node.kind && NewCopies()
        invariant Grows(old(seen), old(done), seen, done) && Growing(node, result, all) && old(seen).Keys <= seen.Keys
        invariant Copied(seen, entries[..i], result.entries)
      {
        var entry := node.entries[i];
        EntryOf(node, i, all);
        ghost var was, wasDone := seen, done;
        var key, value := CloneBoth(entry.key, entry.value, all);
        GrowsTransitive(old(seen), old(done), was, wasDone, seen, done);
        StillGrowing(node, result, all, was, wasDone);
        CopiedExtends(was, seen, entries[..i], result.entries);
        CopiedNext(seen, entries, i, result.entries);
        KeyNotYetCopied(seen, entries, i, result.entries);
        result.Put(key, value);
      }
      assert entries[..|entries|] == entries;
    }

    method CloneObject(node: Node, result: Node, ghost all: set<Node>)
      requires Closed(all) && Inv(all) && Filling(node, result, all) && node.kind == Object
      modifies this, result
      ensures Inv(all) && Filled(node, result) && NewCopies()
      ensures Grows(old(seen), old(done), seen, done)
      decreases all - seen.Keys, 3
    {
      hide Closed, Copied, Injective, AllFaithful, WellFormed, Image, Extends, EntryImage, EntryInside, Grows;
      ghost var entries := node.entries;
      NothingCopied(seen, entries);
      NothingGrown(seen, done);
      for i := 0 to |node.entries|
        invariant node.entries == entries && Closed(all) && Inv(all) && result.kind == node.kind && NewCopies()
        invariant Grows(old(seen), old(done), seen, done) && Growing(node, result, all) && old(seen).Keys <= seen.Keys
        invariant Copied(seen, entries[..i], result.entries)
      {
        var entry := node.entries[i];
        EntryOf(node, i, all);
        ghost var was, wasDone := seen, done;
        var value := Clone(entry.value, all);
        ScalarImage(seen, entry.key);
        GrowsTransitive(old(seen), old(done), was, wasDone, seen, done);
        StillGrowing(node, result, all, was, wasDone);
        CopiedExtends(was, seen, entries[..i], result.entries);
        CopiedNext(seen, entries, i, result.entries);
        KeyNotYetCopied(seen, entries, i, result.entries);
        result.Put(entry.key, value);
      }
      assert entries[..|entries|] == entries;
    }
  }

  // ----- The result -----

  /** `iso` sends every node that can be reached from `value` to its copy: a one-to-one map that keeps
      kinds and contents, entry by entry. */
  ghost predicate Isomorphic(iso: map<Node, Node>, value: Val, copy: Val)
    reads iso.Keys, iso.Values
  {
    && Injective(iso) && Inside(value, iso.Keys) && copy == Image(iso, value)
    && forall n :: n in iso ==> n.kind == iso[n].kind && Copied(iso, n.entries, iso[n].entries)
  }

  /** Clones any value whose nodes lie in a finite closed part `all` of the heap, cycles or not. Nothing
      that existed before is written, and nothing that existed before is part of the copy. */
  method DeepClone(input: Val, ghost all: set<Node>) returns (copy: Val, ghost iso: map<Node, Node>)
    requires Closed(all) && Inside(input, all)
    ensures Isomorphic(iso, input, copy)
    ensures iso.Keys <= all && fresh(iso.Values) && Closed(iso.Keys)
  {
    hide Closed, Injective, Copied;
    var cloner := new Cloner();
    assert Injective(map[]) by {
      EmptyInjective();
    }
    copy := cloner.Clone(input, all);
    iso := cloner.seen;
    assert iso == cloner.done by {
      GrownFromNothing(cloner.seen, cloner.done);
    }
    MetIsClosed(iso, all);
  }

  lemma MetIsClosed(iso: map<Node, Node>, all: set<Node>)
    requires Closed(all) && iso.Keys <= all
    requires forall n :: n in iso ==> Copied(iso, n.entries, iso[n].entries)
    ensures Closed(iso.Keys)
  {
    forall n, e | n in iso && e in n.entries
      ensures EntryInside(e, iso.Keys)
    {
      assert Copied(iso, n.entries, iso[n].entries);
    }
  }

  lemma EmptyInjective()
    ensures Injective(map[])
  {
  }

  lemma GrownFromNothing(m: map<Node, Node>, d: map<Node, Node>)
    requires Grows(map[], map[], m, d) && Extends(d, m)
    ensures d == m
  {
    assert forall n :: n in m ==> n in d;
  }

  /** One step into a node: the key or the value of its entry `index`. */
  datatype Step = KeyOf(index: nat) | ValueOf(index: nat)

  /** Where a path leads, if it leads anywhere. */
  ghost function Follow(v: Val, path: seq<Step>, all: set<Node>): (r: Val)
    requires Closed(all) && Inside(v, all)
    reads all
    ensures Inside(r, all)
    decreases |path|
  {
    if path == [] || v.Prim? || path[0].index >= |v.node.entries| then v else
      var e := v.node.entries[path[0].index];
      assert e in v.node.entries;
      if path[0].KeyOf? && e.Item? then v else
      Follow(if path[0].KeyOf? then e.key else e.value, path[1..], all)
  }

  /** The copy is as well formed, and as closed, as what it was made from. */
  lemma CopyClosed(iso: map<Node, Node>, value: Val, copy: Val)
    requires Isomorphic(iso, value, copy) && Closed(iso.Keys)
    ensures Closed(iso.Values) && Inside(copy, iso.Values)
  {
    forall n | n in iso.Values
      ensures WellFormed(n) && forall e :: e in n.entries ==> EntryInside(e, iso.Values)
    {
      var source :| source in iso && iso[source] == n;
      CopyWellFormed(iso, source, n);
    }
  }

  lemma CopyWellFormed(iso: map<Node, Node>, source: Node, n: Node)
    requires Injective(iso) && source.kind == n.kind && Copied(iso, source.entries, n.entries) && WellFormed(source)
    ensures WellFormed(n) && forall e :: e in n.entries ==> EntryInside(e, iso.Values)
  {
    hide Injective;
    forall i | 0 <= i < |n.entries|
      ensures EntryInside(n.entries[i], iso.Values)
      ensures n.entries[i].Pair? <==> source.entries[i].Pair?
      ensures n.kind == Object ==> n.entries[i].key == source.entries[i].key
    {
      assert source.entries[i] in source.entries;
    }
    forall i, k | 0 <= i < k < |n.entries|
      ensures n.kind == Set ==> n.entries[i] != n.entries[k]
      ensures n.kind == Map || n.kind == Object ==> n.entries[i].key != n.entries[k].key
    {
      var a, b := source.entries[i], source.entries[k];
      assert a in source.entries && b in source.entries;
      assert EntryInside(a, iso.Keys) && EntryInside(b, iso.Keys);
      if n.kind == Set {
        ImageInjective(iso, a.value, b.value);
      } else if n.kind == Map || n.kind == Object {
        ImageInjective(iso, a.key, b.key);
      }
    }
  }

  /** Every path through the copy ends at the copy of where it ends in the original. */
  lemma {:induction false} PathsAgree(iso: map<Node, Node>, value: Val, copy: Val, path: seq<Step>)
    requires Isomorphic(iso, value, copy) && Closed(iso.Keys) && Closed(iso.Values) && Inside(copy, iso.Values)
    ensures Follow(copy, path, iso.Values) == Image(iso, Follow(value, path, iso.Keys))
    decreases |path|
  {
    hide Injective, Closed;
    if path != [] && value.Ref? && path[0].index < |value.node.entries| {
      var e, e' := value.node.entries[path[0].index], copy.node.entries[path[0].index];
      assert EntryInside(e, iso.Keys) && e' == EntryImage(iso, e);
      if !(path[0].KeyOf? && e.Item?) {
        PathsAgree(iso, if path[0].KeyOf? then e.key else e.value,
                   if path[0].KeyOf? then e'.key else e'.value, path[1..]);
      }
    }
  }

  /** Sharing and cycles survive: two paths meet in the copy exactly when they meet in the original. */
  lemma SharingKept(iso: map<Node, Node>, value: Val, copy: Val, p: seq<Step>, q: seq<Step>)
    requires Isomorphic(iso, value, copy) && Closed(iso.Keys)
    ensures Closed(iso.Values) && Inside(copy, iso.Values)
    ensures Follow(copy, p, iso.Values) == Follow(copy, q, iso.Values) <==>
            Follow(value, p, iso.Keys) == Follow(value, q, iso.Keys)
  {
    hide Closed, Copied;
    CopyClosed(iso, value, copy);
    PathsAgree(iso, value, copy, p);
    PathsAgree(iso, value, copy, q);
    var a, b := Follow(value, p, iso.Keys), Follow(value, q, iso.Keys);
    if a != b {
      ImageInjective(iso, a, b);
    }
  }
}
