/** JSON_SET, JSON_INSERT, JSON_REPLACE, JSON_ARRAY_INSERT and JSON_REMOVE along a path. */
module JsonModify {
  import opened Common
  import opened Utf16
  import opened Json

  datatype Mode = Set | Insert | Replace

  function Clamp(i: int, length: nat): nat {
    Min(Max(i, 0), length)
  }

  function InsertItem(items: seq<Doc>, position: nat, value: Doc): seq<Doc>
    requires position <= |items|
  {
    items[..position] + [value] + items[position..]
  }

  /** `_assignAt`. */
  function Assign(node: Doc, path: Path, value: Doc, mode: Mode): Doc
    requires Single(path)
    decreases |path|
  {
    if path == [] then (if mode == Insert then node else value) else
      var segment, rest := path[0], path[1..];
      match segment
      case Key(key) =>
        if !node.Object? then node
        else if key in node.members then Object(node.members[key := Assign(node.members[key], rest, value, mode)])
        else if rest == [] && mode != Replace then Object(node.members[key := value])
        else node
      case Index(_) =>
        var items, i := ItemsOf(node), Resolved(node, segment);
        if 0 <= i < |items| then
          var changed := items[i := Assign(items[i], rest, value, mode)];
          if node.Array? then Array(changed) else changed[0]
        else if rest == [] && mode != Replace then Array(InsertItem(items, Clamp(i, |items|), value))
        else node
  }

  /** `_removeAt`; `None` tells the caller to drop the node itself. */
  function RemoveAt(node: Doc, path: Path): Option<Doc>
    requires Single(path)
    decreases |path|
  {
    if path == [] then Some(node) else
      var segment, rest := path[0], path[1..];
      match segment
      case Key(key) =>
        if !node.Object? || key !in node.members then Some(node) else
          var child := if rest == [] then None else RemoveAt(node.members[key], rest);
          Some(Object(if child.None? then node.members - {key} else node.members[key := child.value]))
      case Index(at) =>
        if node.Array? then
          var i := Resolved(node, segment);
          if !(0 <= i < |node.items|) then Some(node) else
            var child := if rest == [] then None else RemoveAt(node.items[i], rest);
            Some(Array(if child.None? then node.items[..i] + node.items[i + 1..] else node.items[i := child.value]))
        else if at.index != 0 then Some(node)
        else if rest == [] then None
        else RemoveAt(node, rest)
  }

  /** One path of JSON_REMOVE: the document itself cannot be removed. */
  function Remove(node: Doc, path: Path): Doc
    requires Single(path)
  {
    var result := RemoveAt(node, path);
    if result.None? then node else result.value
  }

  /** `_insertAt`. */
  function InsertAt(node: Doc, path: Path, value: Doc): Doc
    requires Single(path)
    decreases |path|
  {
    if path == [] then node else
      var segment, rest := path[0], path[1..];
      match segment
      case Key(key) =>
        if node.Object? && key in node.members
        then Object(node.members[key := InsertAt(node.members[key], rest, value)])
        else node
      case Index(_) =>
        if !node.Array? then node else
          var i := Resolved(node, segment);
          if rest == [] then Array(InsertItem(node.items, Clamp(i, |node.items|), value))
          else if 0 <= i < |node.items| then Array(node.items[i := InsertAt(node.items[i], rest, value)])
          else node
  }

  // ----- A step as a lens -----

  predicate Found(node: Doc, path: Path) {
    Lookup(node, path).Some?
  }

  /** Puts a child where a step leads. */
  function Put(node: Doc, segment: Segment, child: Doc): Doc
    requires !segment.Range? && Child(node, segment).Some?
  {
    match segment
    case Key(key) => Object(node.members[key := child])
    case Index(_) => if node.Array? then Array(node.items[Resolved(node, segment) := child]) else child
  }

  lemma PutGet(node: Doc, segment: Segment)
    requires !segment.Range? && Child(node, segment).Some?
    ensures Put(node, segment, Child(node, segment).value) == node
  {
    if segment.Index? && node.Array? {
      var i := Resolved(node, segment);
      assert node.items[i := node.items[i]] == node.items;
    } else if segment.Key? {
      assert node.members[segment.key := node.members[segment.key]] == node.members;
    }
  }

  lemma GetPut(node: Doc, segment: Segment, child: Doc)
    requires !segment.Range? && Child(node, segment).Some?
    ensures Child(Put(node, segment, child), segment) == Some(child) <==> !(Wraps(node, segment) && child.Array?)
  {
    if Wraps(node, segment) && child.Array? && Child(child, segment).Some? {
      ItemIsSmaller(child, segment);
    }
  }

  lemma ItemIsSmaller(node: Doc, segment: Segment)
    requires node.Array? && segment.Index? && Child(node, segment).Some?
    ensures node decreases to Child(node, segment).value
  {
  }

  lemma PutPut(node: Doc, segment: Segment, child: Doc, child': Doc)
    requires !segment.Range? && Child(node, segment).Some? && !(Wraps(node, segment) && child.Array?)
    ensures Child(Put(node, segment, child), segment).Some?
    ensures Put(Put(node, segment, child), segment, child') == Put(node, segment, child')
  {
  }

  lemma PutInjective(node: Doc, segment: Segment, child: Doc, child': Doc)
    requires !segment.Range? && Child(node, segment).Some?
    requires Put(node, segment, child) == Put(node, segment, child')
    ensures child == child'
  {
    if segment.Index? && node.Array? {
      var i := Resolved(node, segment);
      assert node.items[i := child][i] == node.items[i := child'][i];
    } else if segment.Key? {
      assert node.members[segment.key := child][segment.key] == node.members[segment.key := child'][segment.key];
    }
  }

  /** An assignment goes through an existing child, whatever the mode. */
  lemma AssignStep(node: Doc, path: Path, value: Doc, mode: Mode)
    requires Single(path) && path != [] && Child(node, path[0]).Some?
    ensures Assign(node, path, value, mode) ==
            Put(node, path[0], Assign(Child(node, path[0]).value, path[1..], value, mode))
  {
  }

  // ----- SET, INSERT and REPLACE -----

  /** On a path that exists SET is REPLACE and INSERT does nothing; on one that does not, SET is INSERT
      and REPLACE does nothing. */
  lemma {:induction false} ModesAgree(node: Doc, path: Path, value: Doc)
    requires Single(path)
    ensures Found(node, path) ==>
              && Assign(node, path, value, Set) == Assign(node, path, value, Replace)
              && Assign(node, path, value, Insert) == node
    ensures !Found(node, path) ==>
              && Assign(node, path, value, Set) == Assign(node, path, value, Insert)
              && Assign(node, path, value, Replace) == node
    decreases |path|
  {
    LookupStep(node, path);
    if path != [] && Child(node, path[0]).Some? {
      var child := Child(node, path[0]).value;
      ModesAgree(child, path[1..], value);
      AssignStep(node, path, value, Set);
      AssignStep(node, path, value, Insert);
      AssignStep(node, path, value, Replace);
      PutGet(node, path[0]);
    }
  }

  // ----- Laws of SET on a path that exists -----

  /** The node before the last step is not an array, and the last step reads it as its own item. */
  predicate LastWraps(node: Doc, path: Path)
    requires Single(path)
    decreases |path|
  {
    if path == [] then false
    else if |path| == 1 then Wraps(node, path[0])
    else Child(node, path[0]).Some? && LastWraps(Child(node, path[0]).value, path[1..])
  }

  /** All steps read one and the same value, which is not an array. */
  predicate AllWrap(node: Doc, path: Path)
    requires Single(path)
  {
    !node.Array? && forall i :: 0 <= i < |path| ==> path[i].Index? && Resolved(node, path[i]) == 0
  }

  /** Setting a path to what it holds changes nothing. */
  lemma {:induction false} SetSame(node: Doc, path: Path)
    requires Single(path) && Found(node, path)
    ensures Assign(node, path, Lookup(node, path).value, Set) == node
    decreases |path|
  {
    LookupStep(node, path);
    if path != [] {
      SetSame(Child(node, path[0]).value, path[1..]);
      AssignStep(node, path, Lookup(node, path).value, Set);
      PutGet(node, path[0]);
    }
  }

  /** Setting an existing path gives an array out of a value that is not one only by putting the new
      value in its place. */
  lemma {:induction false} SetThroughWraps(node: Doc, path: Path, value: Doc)
    requires Single(path) && Found(node, path) && !node.Array?
    ensures AllWrap(node, path) ==> Assign(node, path, value, Set) == value
    ensures !AllWrap(node, path) ==> !Assign(node, path, value, Set).Array?
    decreases |path|
  {
    LookupStep(node, path);
    if path != [] {
      var child, rest := Child(node, path[0]).value, path[1..];
      AssignStep(node, path, value, Set);
      if path[0].Index? {
        SetThroughWraps(node, rest, value);
        assert AllWrap(node, path) <==> AllWrap(node, rest) by {
          assert forall i :: 0 < i < |path| ==> path[i] == rest[i - 1];
        }
      }
    }
  }

  /** What a path reads inside an array is smaller than the array. */
  lemma {:induction false} ReadsSmaller(node: Doc, path: Path)
    requires Single(path) && Found(node, path)
    ensures Lookup(node, path).value == node || (node decreases to Lookup(node, path).value)
    ensures path != [] && node.Array? ==> (node decreases to Lookup(node, path).value)
    decreases |path|
  {
    LookupStep(node, path);
    if path != [] {
      ReadsSmaller(Child(node, path[0]).value, path[1..]);
    }
  }

  /** Get after set: the new value is read back, unless the last step wraps and the value is an array. */
  lemma {:induction false} GetAfterSet(node: Doc, path: Path, value: Doc)
    requires Single(path) && Found(node, path)
    ensures Lookup(Assign(node, path, value, Set), path) == Some(value) <==> !(LastWraps(node, path) && value.Array?)
    decreases |path|
  {
    LookupStep(node, path);
    var after := Assign(node, path, value, Set);
    LookupStep(after, path);
    if path != [] {
      var segment, child, rest := path[0], Child(node, path[0]).value, path[1..];
      var changed := Assign(child, rest, value, Set);
      AssignStep(node, path, value, Set);
      GetPut(node, segment, changed);
      GetAfterSet(child, rest, value);
      LookupStep(child, rest);
      if Wraps(node, segment) {
        SetThroughWraps(node, rest, value);
        if AllWrap(node, rest) && value.Array? {
          if Found(value, path) {
            ReadsSmaller(value, path);
          }
          LastOfWraps(node, path);
        }
      }
    }
  }

  lemma {:induction false} LastOfWraps(node: Doc, path: Path)
    requires Single(path) && path != [] && AllWrap(node, path)
    ensures LastWraps(node, path)
    decreases |path|
  {
    if |path| > 1 {
      LastOfWraps(node, path[1..]);
    }
  }

  /** Setting a path inside a document puts the new value somewhere in it, or does nothing. */
  lemma {:induction false} SetAround(node: Doc, path: Path, value: Doc)
    requires Single(path)
    ensures
      var after := Assign(node, path, value, Set);
      && (after == node || after == value || (after decreases to value))
      && (node.Array? && path != [] ==> after == node || (after decreases to value))
    decreases |path|
  {
    if path != [] {
      var segment, rest, after := path[0], path[1..], Assign(node, path, value, Set);
      if Child(node, segment).Some? {
        var child := Child(node, segment).value;
        var changed := Assign(child, rest, value, Set);
        AssignStep(node, path, value, Set);
        SetAround(child, rest, value);
        PutGet(node, segment);
        if segment.Key? {
          assert after.members[segment.key] == changed;
        } else if node.Array? {
          assert after.items[Resolved(node, segment)] == changed;
        }
      } else if after != node {
        if segment.Key? {
          assert after.members[segment.key] == value;
        } else {
          assert after.items[Clamp(Resolved(node, segment), |ItemsOf(node)|)] == value;
        }
      }
    }
  }

  /** The second of two different values wins, unless the last step wraps and the first was an array. */
  lemma {:induction false} SetTwice(node: Doc, path: Path, value: Doc, value': Doc)
    requires Single(path) && Found(node, path) && value != value'
    ensures Assign(Assign(node, path, value, Set), path, value', Set) == Assign(node, path, value', Set) <==>
            !(LastWraps(node, path) && value.Array?)
    decreases |path|
  {
    LookupStep(node, path);
    if path != [] {
      var segment, child, rest := path[0], Child(node, path[0]).value, path[1..];
      var once, twice := Assign(child, rest, value, Set), Assign(child, rest, value', Set);
      AssignStep(node, path, value, Set);
      AssignStep(node, path, value', Set);
      if Wraps(node, segment) && once.Array? {
        SetThroughWraps(node, rest, value);
        SetThroughWraps(node, rest, value');
        LastOfWraps(node, path);
        SetAround(value, path, value');
      } else {
        SetTwice(child, rest, value, value');
        PutPut(node, segment, once, Assign(once, rest, value', Set));
        GetPut(node, segment, once);
        AssignStep(Put(node, segment, once), path, value', Set);
        if Assign(once, rest, value', Set) != twice {
          if Put(node, segment, Assign(once, rest, value', Set)) == Put(node, segment, twice) {
            PutInjective(node, segment, Assign(once, rest, value', Set), twice);
          }
        }
      }
    }
  }

  // ----- What SET leaves alone -----

  /** Two paths part ways: at some step they name different members, or different resolved indexes. */
  predicate Diverges(node: Doc, p: Path, q: Path)
    requires Single(p) && Single(q)
    decreases |p|
  {
    p != [] && q != [] && p[0].Key? == q[0].Key? &&
    if (if p[0].Key? then p[0].key != q[0].key else Resolved(node, p[0]) != Resolved(node, q[0])) then true
    else Child(node, p[0]).Some? && Diverges(Child(node, p[0]).value, p[1..], q[1..])
  }

  /** How many steps at the end of an existing path read the very value the path ends at. */
  function TrailingWraps(node: Doc, path: Path): nat
    requires Single(path)
    decreases |path|
  {
    if path == [] then 0
    else if AllWrap(node, path) then |path|
    else if Child(node, path[0]).None? then 0
    else TrailingWraps(Child(node, path[0]).value, path[1..])
  }

  /** One of the first `n` levels of arrays at the front of `value` has a second item. */
  predicate Wide(value: Doc, n: nat) {
    n > 0 && value.Array? && (|value.items| >= 2 || (|value.items| == 1 && Wide(value.items[0], n - 1)))
  }

  /** Reading through wraps only, by a path that parts from them, finds nothing, before and after. */
  lemma {:induction false} NothingBesideWraps(node: Doc, value: Doc, p: Path, q: Path)
    requires Single(p) && Single(q) && AllWrap(node, p) && Diverges(node, p, q) && !Wide(value, |p|)
    ensures !Found(node, q) && !Found(value, q)
    decreases |p|
  {
    hide Select, Lookup;
    LookupStep(node, q);
    LookupStep(value, q);
    assert p[0].Index? && Resolved(node, p[0]) == 0;
    if Resolved(node, q[0]) == 0 {
      var rest := p[1..];
      assert AllWrap(node, rest) by {
        assert forall i :: 0 <= i < |rest| ==> rest[i] == p[i + 1];
      }
      NothingBesideWraps(node, if value.Array? && |value.items| == 1 then value.items[0] else Nothing, rest, q[1..]);
      if !value.Array? {
        NothingBesideWraps(node, value, rest, q[1..]);
      }
    }
  }

  /** Setting an existing path leaves everything a diverging path reads as it was, as long as the steps
      that wrap at its end do not meet a second item in the new value. */
  lemma {:induction false} SetKeepsOthers(node: Doc, p: Path, q: Path, value: Doc)
    requires Single(p) && Single(q) && Found(node, p) && Diverges(node, p, q)
    requires !Wide(value, TrailingWraps(node, p))
    ensures Lookup(Assign(node, p, value, Set), q) == Lookup(node, q)
    decreases |p|
  {
    LookupStep(node, p);
    var segment, child, rest, after := p[0], Child(node, p[0]).value, p[1..], Assign(node, p, value, Set);
    var changed := Assign(child, rest, value, Set);
    AssignStep(node, p, value, Set);
    LookupStep(node, q);
    LookupStep(after, q);
    if AllWrap(node, p) {
      SetThroughWraps(node, p, value);
      NothingBesideWraps(node, value, p, q);
    } else {
      if !node.Array? {
        SetThroughWraps(node, p, value);
      }
      if Diverges(child, rest, q[1..]) {
        SetKeepsOthers(child, rest, q[1..], value);
      }
      if segment.Index? && !node.Array? {
        assert !after.Array?;
      }
    }
  }

  /** And if they do meet a second item, some diverging path reads something new. */
  lemma {:induction false} SetTouchesOthers(node: Doc, p: Path, value: Doc) returns (q: Path)
    requires Single(p) && Found(node, p) && Wide(value, TrailingWraps(node, p))
    ensures Single(q) && Diverges(node, p, q) && Lookup(Assign(node, p, value, Set), q) != Lookup(node, q)
    decreases |p|
  {
    LookupStep(node, p);
    if AllWrap(node, p) {
      SetThroughWraps(node, p, value);
      q := BesideWraps(node, p, value);
    } else {
      var child, rest, after := Child(node, p[0]).value, p[1..], Assign(node, p, value, Set);
      AssignStep(node, p, value, Set);
      var q' := SetTouchesOthers(child, rest, value);
      q := [p[0]] + q';
      assert q[1..] == q';
      LookupStep(node, q);
      LookupStep(after, q);
      if !node.Array? {
        SetThroughWraps(node, p, value);
      }
    }
  }

  lemma {:induction false} BesideWraps(node: Doc, p: Path, value: Doc) returns (q: Path)
    requires Single(p) && AllWrap(node, p) && Wide(value, |p|)
    ensures Single(q) && Diverges(node, p, q) && !Found(node, q) && Found(value, q)
    decreases |p|
  {
    assert p[0].Index? && Resolved(node, p[0]) == 0;
    if |value.items| >= 2 {
      q := [Index(Bound(1, false))];
    } else {
      assert AllWrap(node, p[1..]) by {
        assert forall i :: 0 <= i < |p[1..]| ==> p[1..][i] == p[i + 1];
      }
      var q' := BesideWraps(node, p[1..], value.items[0]);
      q := [Index(Bound(0, false))] + q';
      assert q[1..] == q';
    }
    LookupStep(node, q);
    LookupStep(value, q);
    if |q| == 1 {
      LookupStep(value.items[1], q[1..]);
    }
  }

  // ----- Inserting and removing -----

  /** An object member that JSON_INSERT or JSON_SET adds is taken away again by JSON_REMOVE. */
  lemma {:induction false} InsertMemberRemove(node: Doc, prefix: Path, key: Text, value: Doc, mode: Mode)
    requires Single(prefix) && Found(node, prefix) && mode != Replace
    requires Lookup(node, prefix).value.Object? && key !in Lookup(node, prefix).value.members
    ensures
      var path := prefix + [Key(key)];
      && Assign(node, path, value, mode) != node
      && Remove(Assign(node, path, value, mode), path) == node
      && RemoveAt(Assign(node, path, value, mode), path) == Some(node)
      && (!node.Array? ==> !Assign(node, path, value, mode).Array?)
    decreases |prefix|
  {
    var path := prefix + [Key(key)];
    var after := Assign(node, path, value, mode);
    LookupStep(node, prefix);
    if prefix == [] {
      assert key in after.members;
      assert after.members - {key} == node.members;
    } else {
      var segment, child := prefix[0], Child(node, prefix[0]).value;
      assert path[1..] == prefix[1..] + [Key(key)];
      InsertMemberRemove(child, prefix[1..], key, value, mode);
      AssignStep(node, path, value, mode);
      var changed := Assign(child, path[1..], value, mode);
      PutGet(node, segment);
      GetPut(node, segment, changed);
      PutPut(node, segment, changed, child);
      if after == node {
        PutInjective(node, segment, changed, child);
      }
    }
  }

  /** No step of an existing path wraps. */
  predicate Straight(node: Doc, path: Path)
    requires Single(path)
    decreases |path|
  {
    path != [] ==>
      !Wraps(node, path[0]) && Child(node, path[0]).Some? && Straight(Child(node, path[0]).value, path[1..])
  }

  /** When the cell that an index inserts before is the cell the same index then removes. */
  predicate Undone(items: seq<Doc>, at: Bound, value: Doc) {
    if at.fromLast then
      at.index == |items| || (at.index < |items| && items[|items| - 1 - at.index] == value)
    else at.index <= |items|
  }

  lemma InsertItemRemove(items: seq<Doc>, at: Bound, value: Doc)
    ensures
      var path := [Index(at)];
      RemoveAt(InsertAt(Array(items), path, value), path) == Some(Array(items)) <==> Undone(items, at, value)
    ensures RemoveAt(InsertAt(Array(items), [Index(at)], value), [Index(at)]).Some?
  {
    var position, i := Clamp(ArrayIndex(at, |items|), |items|), ArrayIndex(at, |items| + 1);
    var more := InsertItem(items, position, value);
    assert InsertAt(Array(items), [Index(at)], value) == Array(more) && |more| == |items| + 1;
    RemoveCell(more, at);
    if 0 <= i <= |items| {
      if at.fromLast && at.index < |items| {
        NextItemRemoved(items, position, value);
      } else {
        SameItemRemoved(items, position, value);
      }
    }
  }

  lemma RemoveCell(items: seq<Doc>, at: Bound)
    ensures
      var i := ArrayIndex(at, |items|);
      RemoveAt(Array(items), [Index(at)]) ==
      Some(Array(if 0 <= i < |items| then items[..i] + items[i + 1..] else items))
  {
  }

  lemma SameItemRemoved(items: seq<Doc>, position: nat, value: Doc)
    requires position <= |items|
    ensures
      var more := InsertItem(items, position, value);
      more[..position] + more[position + 1..] == items
  {
  }

  /** Removing the cell after the inserted one leaves the new value in place of the old. */
  lemma NextItemRemoved(items: seq<Doc>, position: nat, value: Doc)
    requires position < |items|
    ensures
      var more := InsertItem(items, position, value);
      var left := more[..position + 1] + more[position + 2..];
      left == items <==> items[position] == value
  {
    var more := InsertItem(items, position, value);
    var left := more[..position + 1] + more[position + 2..];
    assert left == items[position := value];
    assert left[position] == value;
    assert items[position := items[position]] == items;
  }

  /** JSON_ARRAY_INSERT and then JSON_REMOVE on the same path restores the document if and only if the
      index is at most the length, when counted from the front, and when counted back from the last item
      it is the length, or the item it names equals the inserted value. */
  lemma {:induction false} InsertCellRemove(node: Doc, prefix: Path, at: Bound, value: Doc)
    requires Single(prefix) && Found(node, prefix) && Straight(node, prefix) && Lookup(node, prefix).value.Array?
    ensures
      var path := prefix + [Index(at)];
      && RemoveAt(InsertAt(node, path, value), path).Some?
      && (Remove(InsertAt(node, path, value), path) == node <==>
          Undone(Lookup(node, prefix).value.items, at, value))
    decreases |prefix|
  {
    var path := prefix + [Index(at)];
    LookupStep(node, prefix);
    if prefix == [] {
      assert path == [Index(at)];
      InsertItemRemove(node.items, at, value);
    } else {
      var segment, child, rest := prefix[0], Child(node, prefix[0]).value, path[1..];
      assert rest == prefix[1..] + [Index(at)];
      InsertCellRemove(child, prefix[1..], at, value);
      var changed := InsertAt(child, rest, value);
      assert InsertAt(node, path, value) == Put(node, segment, changed);
      GetPut(node, segment, changed);
      PutGet(node, segment);
      var restored := RemoveAt(changed, rest).value;
      PutPut(node, segment, changed, restored);
      assert RemoveAt(Put(node, segment, changed), path) == Some(Put(node, segment, restored));
      if Put(node, segment, restored) == node {
        PutInjective(node, segment, restored, child);
      }
    }
  }

  // ----- Several paths -----

  datatype Change = Change(path: Path, value: Doc)

  /** JSON_SET, JSON_INSERT or JSON_REPLACE with any number of pairs, left to right. */
  function Modified(node: Doc, changes: seq<Change>, mode: Mode): Doc
    requires forall i :: 0 <= i < |changes| ==> Single(changes[i].path)
  {
    if changes == [] then node else
      var n := |changes| - 1;
      Assign(Modified(node, changes[..n], mode), changes[n].path, changes[n].value, mode)
  }

  /** The loop of `_jsonModify`. */
  method ModifyAll(doc: Doc, changes: seq<Change>, mode: Mode) returns (node: Doc)
    requires forall i :: 0 <= i < |changes| ==> Single(changes[i].path)
    ensures node == Modified(doc, changes, mode)
  {
    node := doc;
    for i := 0 to |changes|
      invariant node == Modified(doc, changes[..i], mode)
    {
      assert changes[..i + 1][..i] == changes[..i];
      node := Assign(node, changes[i].path, changes[i].value, mode);
    }
    assert changes[..|changes|] == changes;
  }

  function Removed(node: Doc, paths: seq<Path>): Doc
    requires forall i :: 0 <= i < |paths| ==> Single(paths[i])
  {
    if paths == [] then node else
      var n := |paths| - 1;
      Remove(Removed(node, paths[..n]), paths[n])
  }

  /** The loop of `json_remove`: an empty path is an error, whichever comes first. */
  method RemoveAll(doc: Doc, paths: seq<Path>) returns (node: Option<Doc>)
    requires forall i :: 0 <= i < |paths| ==> Single(paths[i])
    ensures node.None? <==> [] in paths
    ensures node.Some? ==> node.value == Removed(doc, paths)
  {
    var current := doc;
    for i := 0 to |paths|
      invariant current == Removed(doc, paths[..i]) && [] !in paths[..i]
    {
      if paths[i] == [] {
        return None;
      }
      assert paths[..i + 1] == paths[..i] + [paths[i]];
      var result := RemoveAt(current, paths[i]);
      if result.Some? {
        current := result.value;
      }
    }
    assert paths[..|paths|] == paths;
    node := Some(current);
  }
}
