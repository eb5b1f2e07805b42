/** When distinct keys have distinct texts, and what is left of keys that share one. */
module UpsertKeys {
  import opened Common
  import opened Decimal
  import opened Upsert
  import opened UpsertLaws
  import opened UpsertExact

  /** Values a key column can be compared by: both numbers, or both strings. */
  predicate SameType(a: Value, b: Value) {
    (a.Num? && b.Num?) || (a.Str? && b.Str?)
  }

  lemma TextInjective(a: Value, b: Value)
    requires SameType(a, b) && Text(a) == Text(b)
    ensures a == b
  {
    if a.Num? {
      forall v: Value | v.Num?
        ensures Text(v) != [] && (Text(v)[0] == '-' <==> v.n < 0)
      {
        var size := if v.n < 0 then -v.n else v.n;
        DigitsRoundTrip(size);
      }
      if a.n < 0 {
        assert Text(a)[1..] == Numeral(-a.n) && Text(b)[1..] == Numeral(-b.n);
        NumeralInjective(-a.n, -b.n);
      } else {
        NumeralInjective(a.n, b.n);
      }
    }
  }

  lemma NumeralInjective(n: nat, m: nat)
    requires Numeral(n) == Numeral(m)
    ensures n == m
  {
    var s, t := Digits(n), Digits(m);
    assert |s| == |Numeral(n)| == |t|;
    forall i | 0 <= i < |s|
      ensures s[i] == t[i]
    {
      assert Numeral(n)[i] == Numeral(m)[i];
    }
    DigitsInjective(n, m);
  }

  /** Two texts joined by '|' come apart again if neither first part holds a '|'. */
  lemma SplitAtBar(a: string, rest: string, b: string, rest': string)
    requires a + "|" + rest == b + "|" + rest'
    requires '|' !in a && '|' !in b
    ensures a == b && rest == rest'
  {
    var whole := a + "|" + rest;
    assert whole[|a|] == '|' && whole[|b|] == '|';
    assert forall i :: 0 <= i < |a| ==> whole[i] == a[i] && whole[i] in a;
    assert forall i :: 0 <= i < |b| ==> whole[i] == b[i] && whole[i] in b;
    assert whole[..|a|] == a && whole[..|b|] == b;
    assert whole[|a| + 1..] == rest && whole[|b| + 1..] == rest';
  }

  /** Joining with '|' keeps keys apart when there is one key column, or no text holds a '|'. */
  lemma {:induction false} KeyTextInjective(a: Key, b: Key)
    requires |a| == |b| && forall i :: 0 <= i < |a| ==> SameType(a[i], b[i])
    requires |a| <= 1 || forall i :: 0 <= i < |a| ==> '|' !in Text(a[i]) && '|' !in Text(b[i])
    requires KeyText(a) == KeyText(b)
    ensures a == b
  {
    hide Text;
    if |a| == 1 {
      TextInjective(a[0], b[0]);
    } else if |a| > 1 {
      SplitAtBar(Text(a[0]), KeyText(a[1..]), Text(b[0]), KeyText(b[1..]));
      TextInjective(a[0], b[0]);
      KeyTextInjective(a[1..], b[1..]);
    }
  }

  /** Any text that holds a '|' can collide in a key of two string columns. */
  lemma BarCollides(x: string, y: string, z: string)
    ensures
      var a, b := [Str(x + "|" + y), Str(z)], [Str(x), Str(y + "|" + z)];
      a != b && KeyText(a) == KeyText(b)
  {
    var a, b := [Str(x + "|" + y), Str(z)], [Str(x), Str(y + "|" + z)];
    assert |x + "|" + y| > |x|;
    assert KeyText(a[1..]) == z && KeyText(b[1..]) == y + "|" + z;
    assert (x + "|" + y) + "|" + z == x + "|" + (y + "|" + z);
  }

  /** The keys of a table have one column of values they can be compared by, or several, without a '|'. */
  ghost predicate Plain(keys: set<Key>) {
    forall a, b :: a in keys && b in keys ==>
      && |a| == |b| && (forall i :: 0 <= i < |a| ==> SameType(a[i], b[i]))
      && (|a| <= 1 || forall i :: 0 <= i < |a| ==> '|' !in Text(a[i]))
  }

  /** Among such keys no two share an entry. */
  lemma PlainApart(keys: set<Key>)
    requires Plain(keys)
    ensures Injective(keys)
  {
    hide KeyText, Text;
    forall a, b | a in keys && b in keys && KeyText(a) == KeyText(b)
      ensures a == b
    {
      KeyTextInjective(a, b);
    }
  }

  // ----- Keys that share a text -----

  function KeyAt(st: Statement, rows: seq<Record>, i: nat): Key
    requires i < |rows|
  {
    KeyCells(rows[i], st.primaryKey)
  }

  /** No row before has a key with this text. */
  ghost predicate IsFirst(st: Statement, rows: seq<Record>, i: nat)
    requires i < |rows|
  {
    forall k :: 0 <= k < i ==> KeyText(KeyAt(st, rows, k)) != KeyText(KeyAt(st, rows, i))
  }

  /** The keys that are the first with their texts. */
  ghost function FirstKeys(st: Statement, rows: seq<Record>): set<Key> {
    set i | 0 <= i < |rows| && IsFirst(st, rows, i) :: KeyAt(st, rows, i)
  }

  /** What is in memory is one row for each text, with the first key of that text. */
  ghost predicate HoldsFirst(st: Statement, rows: seq<Record>, s: Sim) {
    && (forall i :: 0 <= i < |rows| ==> KeyText(KeyAt(st, rows, i)) in s.rows)
    && (forall t :: t in s.rows ==>
          exists i :: 0 <= i < |rows| && IsFirst(st, rows, i) && KeyText(KeyAt(st, rows, i)) == t &&
                      KeyCells(s.rows[t], st.primaryKey) == KeyAt(st, rows, i))
  }

  lemma SimKeepsKey(st: Statement, s: Sim, row: Record)
    requires KeepsKey(st) && SimRow(st, s, row).Some?
    ensures
      var t, s' := KeyText(KeyCells(row, st.primaryKey)), SimRow(st, s, row).value;
      && s'.rows.Keys == s.rows.Keys + {t}
      && KeyCells(s'.rows[t], st.primaryKey) == KeyCells(if t in s.rows then s.rows[t] else row, st.primaryKey)
      && forall u :: u in s.rows && u != t ==> s'.rows[u] == s.rows[u]
  {
    hide KeyCells, KeyText, KeepsKey, Noted, Changes, Assign;
    var t := KeyText(KeyCells(row, st.primaryKey));
    if t in s.rows {
      var v := Evaluate(st.items, s.rows[t], row).value;
      AssignKeepsKey(st, s.rows[t], v, |st.items|);
      assert st.items[..|st.items|] == st.items && v[..|st.items|] == v;
    }
  }

  lemma FirstInFront(st: Statement, rows: seq<Record>, i: nat)
    requires i < |rows| - 1
    ensures KeyAt(st, rows[..|rows| - 1], i) == KeyAt(st, rows, i)
    ensures IsFirst(st, rows[..|rows| - 1], i) <==> IsFirst(st, rows, i)
  {
    hide KeyCells, KeyText;
    var front := rows[..|rows| - 1];
    assert forall k :: 0 <= k <= i ==> KeyAt(st, front, k) == KeyAt(st, rows, k);
  }

  lemma {:induction false} SimHoldsFirst(st: Statement, s: Sim, rows: seq<Record>)
    requires KeepsKey(st) && s.rows == map[] && SimAll(st, s, rows).Some?
    ensures HoldsFirst(st, rows, SimAll(st, s, rows).value)
  {
    if rows != [] {
      hide KeyText, KeyAt, KeepsKey, SimRow, IsFirst, HoldsFirst;
      var n := |rows| - 1;
      SimHoldsFirst(st, s, rows[..n]);
      SimKeepsKey(st, SimAll(st, s, rows[..n]).value, rows[n]);
      HoldsNext(st, rows, SimAll(st, s, rows[..n]).value, SimAll(st, s, rows).value);
    }
  }

  lemma HoldsNext(st: Statement, rows: seq<Record>, s: Sim, s': Sim)
    requires rows != [] && HoldsFirst(st, rows[..|rows| - 1], s)
    requires
      var t := KeyText(KeyAt(st, rows, |rows| - 1));
      && s'.rows.Keys == s.rows.Keys + {t}
      && KeyCells(s'.rows[t], st.primaryKey) ==
          KeyCells(if t in s.rows then s.rows[t] else rows[|rows| - 1], st.primaryKey)
      && forall u :: u in s.rows && u != t ==> s'.rows[u] == s.rows[u]
    ensures HoldsFirst(st, rows, s')
  {
    hide KeyText, KeyAt, KeyCells, IsFirst, HoldsFirst;
    var n, front := |rows| - 1, rows[..|rows| - 1];
    forall i | 0 <= i < |rows|
      ensures KeyText(KeyAt(st, rows, i)) in s'.rows
    {
      if i < n {
        FirstInFront(st, rows, i);
        TextIsHeld(st, front, s, i);
      }
    }
    forall t | t in s'.rows
      ensures exists i :: 0 <= i < |rows| && IsFirst(st, rows, i) && KeyText(KeyAt(st, rows, i)) == t &&
                          KeyCells(s'.rows[t], st.primaryKey) == KeyAt(st, rows, i)
    {
      if t in s.rows {
        var i := FirstHeld(st, front, s, t);
        FirstInFront(st, rows, i);
      } else {
        NewIsFirst(st, rows, s);
        assert KeyAt(st, rows, n) == KeyCells(rows[n], st.primaryKey) by {
          KeyIs(st, rows, n);
        }
      }
    }
    MakeHoldsFirst(st, rows, s');
  }

  lemma KeyIs(st: Statement, rows: seq<Record>, i: nat)
    requires i < |rows|
    ensures KeyAt(st, rows, i) == KeyCells(rows[i], st.primaryKey)
  {
  }

  lemma TextIsHeld(st: Statement, rows: seq<Record>, s: Sim, i: nat)
    requires HoldsFirst(st, rows, s) && i < |rows|
    ensures KeyText(KeyAt(st, rows, i)) in s.rows
  {
  }

  lemma FirstHeld(st: Statement, rows: seq<Record>, s: Sim, t: string) returns (i: nat)
    requires HoldsFirst(st, rows, s) && t in s.rows
    ensures i < |rows| && IsFirst(st, rows, i) && KeyText(KeyAt(st, rows, i)) == t
    ensures KeyCells(s.rows[t], st.primaryKey) == KeyAt(st, rows, i)
  {
    hide KeyText, KeyAt, KeyCells, IsFirst;
    i :| 0 <= i < |rows| && IsFirst(st, rows, i) && KeyText(KeyAt(st, rows, i)) == t &&
      KeyCells(s.rows[t], st.primaryKey) == KeyAt(st, rows, i);
  }

  lemma MakeHoldsFirst(st: Statement, rows: seq<Record>, s: Sim)
    requires forall i :: 0 <= i < |rows| ==> KeyText(KeyAt(st, rows, i)) in s.rows
    requires forall t :: t in s.rows ==>
               exists i :: 0 <= i < |rows| && IsFirst(st, rows, i) && KeyText(KeyAt(st, rows, i)) == t &&
                           KeyCells(s.rows[t], st.primaryKey) == KeyAt(st, rows, i)
    ensures HoldsFirst(st, rows, s)
  {
  }

  lemma NewIsFirst(st: Statement, rows: seq<Record>, s: Sim)
    requires rows != [] && HoldsFirst(st, rows[..|rows| - 1], s) && KeyText(KeyAt(st, rows, |rows| - 1)) !in s.rows
    ensures IsFirst(st, rows, |rows| - 1)
  {
    hide KeyText;
    var front := rows[..|rows| - 1];
    forall k | 0 <= k < |front|
      ensures KeyText(KeyAt(st, rows, k)) != KeyText(KeyAt(st, rows, |rows| - 1))
    {
      assert KeyAt(st, front, k) == KeyAt(st, rows, k);
    }
  }

  lemma {:induction false} ReferenceKeys(st: Statement, o: Outcome, rows: seq<Record>)
    requires UpsertAll(st, o, rows).Some?
    ensures UpsertAll(st, o, rows).value.table.Keys == o.table.Keys + KeysOf(st, rows)
  {
    hide KeyCells, Evaluate, ValueChanges;
    if rows != [] {
      var n := |rows| - 1;
      ReferenceKeys(st, o, rows[..n]);
      KeysOfLast(st, rows);
    }
  }

  lemma KeysOfLast(st: Statement, rows: seq<Record>)
    requires rows != []
    ensures KeysOf(st, rows) == KeysOf(st, rows[..|rows| - 1]) + {KeyCells(rows[|rows| - 1], st.primaryKey)}
  {
    hide KeyCells;
    var front := rows[..|rows| - 1];
    forall k | k in KeysOf(st, rows)
      ensures k in KeysOf(st, front) + {KeyCells(rows[|rows| - 1], st.primaryKey)}
    {
      var i :| 0 <= i < |rows| && KeyCells(rows[i], st.primaryKey) == k;
      assert i < |front| ==> front[i] == rows[i];
    }
    forall k | k in KeysOf(st, front)
      ensures k in KeysOf(st, rows)
    {
      var i :| 0 <= i < |front| && KeyCells(front[i], st.primaryKey) == k;
      assert front[i] == rows[i];
    }
  }

  /** When none of the keys is in the table: the batch adds the first key of each text, and row by row adds
      all keys. */
  lemma KeysAdded(st: Statement, stored: map<Key, Item>, rows: seq<Record>)
    requires KeepsKey(st) && KeysOf(st, rows) !! stored.Keys
    ensures Injective(KeysOf(st, rows) * stored.Keys)
    ensures
      var batch, reference := Batch(st, stored, rows), RowByRow(st, stored, rows);
      && (batch.Some? ==> batch.value.table.Keys == stored.Keys + FirstKeys(st, rows))
      && (reference.Some? ==> reference.value.table.Keys == stored.Keys + KeysOf(st, rows))
  {
    hide KeyCells, KeyText, KeepsKey, Start, SimAll, UpsertAll, HoldsFirst;
    var wanted := KeysOf(st, rows);
    assert wanted * stored.Keys == {};
    NothingRead(stored, wanted);
    var s, o := Start(stored, wanted), Outcome(stored, 0, 0);
    if SimAll(st, s, rows).Some? {
      SimHoldsFirst(st, s, rows);
      NewAreFirst(st, stored, rows, SimAll(st, s, rows).value);
    }
    if UpsertAll(st, o, rows).Some? {
      ReferenceKeys(st, o, rows);
    }
  }

  lemma NothingRead(stored: map<Key, Item>, wanted: set<Key>)
    requires wanted * stored.Keys == {}
    ensures Injective(wanted * stored.Keys) && Start(stored, wanted).rows == map[]
  {
    var s := Start(stored, wanted);
    assert forall k :: k in stored && k in wanted ==> k in wanted * stored.Keys;
  }

  lemma NewAreFirst(st: Statement, stored: map<Key, Item>, rows: seq<Record>, s: Sim)
    requires KeysOf(st, rows) !! stored.Keys && HoldsFirst(st, rows, s)
    ensures Written(st, stored, KeysOf(st, rows), s).Keys == stored.Keys + FirstKeys(st, rows)
  {
    hide KeyCells, KeyText, Attrs;
    var wanted := KeysOf(st, rows);
    forall k | k in FirstKeys(st, rows)
      ensures k in NewKeys(st, stored, wanted, s)
    {
      var i :| 0 <= i < |rows| && IsFirst(st, rows, i) && KeyAt(st, rows, i) == k;
      var t := KeyText(k);
      var q :| 0 <= q < |rows| && IsFirst(st, rows, q) && KeyText(KeyAt(st, rows, q)) == t &&
        KeyCells(s.rows[t], st.primaryKey) == KeyAt(st, rows, q);
      assert q == i;
    }
    forall k | k in NewKeys(st, stored, wanted, s)
      ensures k in FirstKeys(st, rows)
    {
      var t :| t in s.rows && KeyCells(s.rows[t], st.primaryKey) == k;
    }
  }

  /** The first keys are all keys iff no two keys share a text. */
  lemma FirstAreAllIff(st: Statement, rows: seq<Record>)
    ensures FirstKeys(st, rows) <= KeysOf(st, rows)
    ensures FirstKeys(st, rows) == KeysOf(st, rows) <==> Injective(KeysOf(st, rows))
  {
    hide KeyCells, KeyText;
    var keys := KeysOf(st, rows);
    assert forall i :: 0 <= i < |rows| ==> KeyAt(st, rows, i) == KeyCells(rows[i], st.primaryKey);
    if Injective(keys) {
      forall k | k in keys
        ensures k in FirstKeys(st, rows)
      {
        var i :| 0 <= i < |rows| && KeyAt(st, rows, i) == k;
        var q := FirstWith(st, rows, i);
        assert KeyAt(st, rows, q) in keys;
      }
    }
    if FirstKeys(st, rows) == keys {
      forall a, b | a in keys && b in keys && KeyText(a) == KeyText(b)
        ensures a == b
      {
        var i :| 0 <= i < |rows| && IsFirst(st, rows, i) && KeyAt(st, rows, i) == a;
        var k :| 0 <= k < |rows| && IsFirst(st, rows, k) && KeyAt(st, rows, k) == b;
        assert i == k;
      }
    }
  }

  lemma {:induction false} FirstWith(st: Statement, rows: seq<Record>, i: nat) returns (first: nat)
    requires i < |rows|
    ensures first <= i && IsFirst(st, rows, first) && KeyText(KeyAt(st, rows, first)) == KeyText(KeyAt(st, rows, i))
    decreases i
  {
    hide KeyCells, KeyText;
    if IsFirst(st, rows, i) {
      first := i;
    } else {
      var k :| 0 <= k < i && KeyText(KeyAt(st, rows, k)) == KeyText(KeyAt(st, rows, i));
      first := FirstWith(st, rows, k);
    }
  }

  /** Whatever `Upsert.Run` accepts, and as long as neither fails: batch and row by row leave rows for the
      same keys iff no two listed keys share a text. */
  lemma KeysRightIff(st: Statement, stored: map<Key, Item>, rows: seq<Record>)
    requires KeepsKey(st) && StoredByKey(st, stored) && Readable(stored, KeysOf(st, rows))
    ensures Injective(KeysOf(st, rows) * stored.Keys)
    ensures
      var batch, reference := Batch(st, stored, rows), RowByRow(st, stored, rows);
      batch.Some? && reference.Some? ==>
        (batch.value.table.Keys == reference.value.table.Keys <==> Injective(KeysOf(st, rows)))
  {
    hide KeyCells, KeyText, KeepsKey, StoredByKey, Start, SimAll, UpsertAll, FirstKeys;
    var wanted := KeysOf(st, rows);
    FirstAreAllIff(st, rows);
    if wanted !! stored.Keys {
      KeysAdded(st, stored, rows);
    } else {
      SubsetInjective(wanted, wanted * stored.Keys);
      var s, o := Start(stored, wanted), Outcome(stored, 0, 0);
      if SimAll(st, s, rows).Some? && UpsertAll(st, o, rows).Some? {
        ReferenceKeys(st, o, rows);
        WrittenAll(st, stored, rows);
      }
    }
  }

  lemma {:induction false} TextsHeld(st: Statement, s: Sim, rows: seq<Record>, i: nat)
    requires KeepsKey(st) && SimAll(st, s, rows).Some? && i < |rows|
    ensures KeyText(KeyAt(st, rows, i)) in SimAll(st, s, rows).value.rows
  {
    hide KeyCells, KeyText, KeepsKey, SimRow;
    var n := |rows| - 1;
    SimKeepsKey(st, SimAll(st, s, rows[..n]).value, rows[n]);
    if i < n {
      TextsHeld(st, s, rows[..n], i);
      assert KeyAt(st, rows[..n], i) == KeyAt(st, rows, i);
    }
  }

  /** With a text for each key, the batch leaves all of them. */
  lemma WrittenAll(st: Statement, stored: map<Key, Item>, rows: seq<Record>)
    requires KeepsKey(st) && StoredByKey(st, stored) && Injective(KeysOf(st, rows))
    requires Injective(KeysOf(st, rows) * stored.Keys) && SimAll(st, Start(stored, KeysOf(st, rows)), rows).Some?
    ensures
      var wanted := KeysOf(st, rows);
      Written(st, stored, wanted, SimAll(st, Start(stored, wanted), rows).value).Keys == stored.Keys + wanted
  {
    hide KeyCells, KeyText, KeepsKey, StoredByKey, Start, SimAll, Attrs;
    var wanted := KeysOf(st, rows);
    var s := SimAll(st, Start(stored, wanted), rows).value;
    KeysStayStart(st, stored, wanted);
    assert rows[..|rows|] == rows;
    KeysStayAll(st, wanted, Start(stored, wanted), rows, |rows|);
    forall k | k in wanted && k !in stored
      ensures k in NewKeys(st, stored, wanted, s)
    {
      var i :| 0 <= i < |rows| && KeyCells(rows[i], st.primaryKey) == k;
      TextsHeld(st, Start(stored, wanted), rows, i);
      assert KeyCells(s.rows[KeyText(k)], st.primaryKey) == k;
    }
  }
}
