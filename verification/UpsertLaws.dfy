/** When the batched upsert is the same as upserting row by row. */
module UpsertLaws {
  import opened Common
  import opened Upsert

  // ----- The reference: one row after the other, each read from the table and written back -----

  /** Writing the values of a SET list. */
  function StoreAssign(was: Item, items: seq<SetItem>, values: seq<Cell>): Item
    requires |values| == |items|
  {
    if items == [] then was else
      var n := |items| - 1;
      StoreAssign(was, items[..n], values[..n])[Lower(items[n].column) := ToAttr(values[n])]
  }

  function ValueAt(r: Record, column: string): Value {
    CellValue(At(r, column))
  }

  /** Some value differs from what the row held before. */
  predicate ValueChanges(was: Record, items: seq<SetItem>, values: seq<Cell>)
    requires |values| == |items|
  {
    exists i :: 0 <= i < |items| && ValueAt(was, Lower(items[i].column)) != CellValue(values[i])
  }

  datatype Outcome = Outcome(table: map<Key, Item>, affected: nat, duplicates: nat)

  function UpsertRow(st: Statement, o: Outcome, row: Record): Option<Outcome> {
    var k := KeyCells(row, st.primaryKey);
    if k !in o.table then Some(Outcome(o.table[k := Attrs(row)], o.affected + 1, o.duplicates)) else
      var was := Cells(o.table[k]);
      match Evaluate(st.items, was, row)
      case None => None
      case Some(values) =>
        Some(Outcome(o.table[k := StoreAssign(o.table[k], st.items, values)],
                     o.affected + (if ValueChanges(was, st.items, values) then 2 else 1),
                     o.duplicates + 1))
  }

  function UpsertAll(st: Statement, o: Outcome, rows: seq<Record>): Option<Outcome> {
    if rows == [] then Some(o) else
      match UpsertAll(st, o, rows[..|rows| - 1])
      case None => None
      case Some(front) => UpsertRow(st, front, rows[|rows| - 1])
  }

  function RowByRow(st: Statement, stored: map<Key, Item>, rows: seq<Record>): Option<Result> {
    match UpsertAll(st, Outcome(stored, 0, 0), rows)
    case None => None
    case Some(o) => Some(Result(o.table, Counts(o.affected, o.duplicates)))
  }

  // ----- Comparing results -----

  /** The same values in every column; a missing one is NULL. */
  ghost predicate SameItem(a: Item, b: Item) {
    forall c :: ValueAt(Cells(a), c) == ValueAt(Cells(b), c)
  }

  ghost predicate SameTable(a: map<Key, Item>, b: map<Key, Item>) {
    a.Keys == b.Keys && forall k :: k in a ==> SameItem(a[k], b[k])
  }

  /** Both fail, or both give the same table and the same counts. */
  ghost predicate Agree(a: Option<Result>, b: Option<Result>) {
    && a.None? == b.None?
    && (a.Some? && b.Some? ==> SameTable(a.value.table, b.value.table) && a.value.counts == b.value.counts)
  }

  /** Rows with the same columns and values, whatever the types of their cells. */
  ghost predicate SameValues(a: Record, b: Record) {
    a.Keys == b.Keys && forall c :: c in a ==> CellValue(a[c]) == CellValue(b[c])
  }

  ghost predicate SameResult(a: Option<Cell>, b: Option<Cell>) {
    a.None? == b.None? && (a.Some? && b.Some? ==> CellValue(a.value) == CellValue(b.value))
  }

  /** The SET expressions see the values of the stored row, not the types that a write would drop. */
  ghost predicate TypeBlind(items: seq<SetItem>) {
    forall i, a: Record, b: Record, row: Record {:trigger items[i].expr(a, row), SameValues(a, b)} ::
      0 <= i < |items| && SameValues(a, b) ==> SameResult(items[i].expr(a, row), items[i].expr(b, row))
  }

  // ----- When `isSameCell` judges by value -----

  ghost predicate Clear(cell: Cell, value: Cell) {
    Same(cell, value) <==> CellValue(cell) == CellValue(value)
  }

  /** A numeric NULL, such as the result of a division by zero, meets 0: `isSameCell` takes them for the same. */
  predicate NullMeetsZero(a: Cell, b: Cell) {
    (a == NumberCell(None) && CellValue(b) == Num(0)) || (b == NumberCell(None) && CellValue(a) == Num(0))
  }

  /** A numeric NULL meets another NULL: `isSameCell` tells them apart. */
  predicate NullMeetsNull(a: Cell, b: Cell) {
    CellValue(a) == CellValue(b) == Nothing && (a == NumberCell(None)) != (b == NumberCell(None))
  }

  /** `isSameCell` is right about all pairs of cells but these. */
  lemma ClearIff(a: Cell, b: Cell)
    ensures Same(a, b) && CellValue(a) != CellValue(b) <==> NullMeetsZero(a, b)
    ensures !Same(a, b) && CellValue(a) == CellValue(b) <==> NullMeetsNull(a, b)
    ensures Clear(a, b) <==> !NullMeetsZero(a, b) && !NullMeetsNull(a, b)
  {
    assert Normal(a) == CellValue(a) || a == NumberCell(None);
    assert Normal(b) == CellValue(b) || b == NumberCell(None);
  }

  /** The cell that assignment `i` is for, as the row was. */
  function CellFor(was: Record, items: seq<SetItem>, i: nat): Cell
    requires i < |items|
  {
    At(was, Lower(items[i].column))
  }

  /** The update of a row is judged the wrong way: some numeric NULL meets 0 and nothing else changes, or some
      numeric NULL meets another NULL and no value changes at all. */
  ghost predicate Misjudged(was: Record, items: seq<SetItem>, v: seq<Cell>)
    requires |v| == |items|
  {
    || ((exists i :: 0 <= i < |items| && NullMeetsZero(CellFor(was, items, i), v[i])) &&
        forall i :: 0 <= i < |items| ==>
          NullMeetsZero(CellFor(was, items, i), v[i]) ||
          (CellValue(CellFor(was, items, i)) == CellValue(v[i]) && !NullMeetsNull(CellFor(was, items, i), v[i])))
    || ((exists i :: 0 <= i < |items| && NullMeetsNull(CellFor(was, items, i), v[i])) &&
        forall i :: 0 <= i < |items| ==> CellValue(CellFor(was, items, i)) == CellValue(v[i]))
  }

  lemma MisjudgedIff(was: Record, items: seq<SetItem>, v: seq<Cell>)
    requires |v| == |items|
    ensures Misjudged(was, items, v) <==> !(Changes(was, items, v) <==> ValueChanges(was, items, v))
  {
    hide NullMeetsZero, NullMeetsNull, Same, Lower, CellValue;
    forall i | 0 <= i < |items|
      ensures
        var cell := CellFor(was, items, i);
        && (Same(cell, v[i]) && CellValue(cell) != CellValue(v[i]) <==> NullMeetsZero(cell, v[i]))
        && (!Same(cell, v[i]) && CellValue(cell) == CellValue(v[i]) <==> NullMeetsNull(cell, v[i]))
    {
      ClearIff(CellFor(was, items, i), v[i]);
    }
    assert Changes(was, items, v) <==> exists i :: 0 <= i < |items| && !Same(CellFor(was, items, i), v[i]);
    assert ValueChanges(was, items, v) <==>
           exists i :: 0 <= i < |items| && CellValue(CellFor(was, items, i)) != CellValue(v[i]);
  }

  /** Every assignment is judged by value when its turn comes. */
  ghost predicate ClearAll(was: Record, items: seq<SetItem>, values: seq<Cell>)
    requires |values| == |items|
  {
    forall i :: 0 <= i < |items| ==>
      Clear(At(Assign(was, items[..i], values[..i]), Lower(items[i].column)), values[i])
  }

  /** No assignment is lost: none is taken for what the row holds by then while its value differs. */
  ghost predicate KeptAll(was: Record, items: seq<SetItem>, values: seq<Cell>)
    requires |values| == |items|
  {
    forall i :: 0 <= i < |items| ==>
      !NullMeetsZero(At(Assign(was, items[..i], values[..i]), Lower(items[i].column)), values[i])
  }

  /** If the listed row is an update, it is judged the right way. */
  ghost predicate RowJudged(st: Statement, s: Sim, row: Record) {
    var t := KeyText(KeyCells(row, st.primaryKey));
    t in s.rows && Evaluate(st.items, s.rows[t], row).Some? ==>
      !Misjudged(s.rows[t], st.items, Evaluate(st.items, s.rows[t], row).value)
  }

  /** If it updates a stored row, no assignment is lost; what is noted of a new row is never written. */
  ghost predicate RowKept(st: Statement, stored: map<Key, Item>, s: Sim, row: Record) {
    var k := KeyCells(row, st.primaryKey);
    k in stored && KeyText(k) in s.rows && Evaluate(st.items, s.rows[KeyText(k)], row).Some? ==>
      KeptAll(s.rows[KeyText(k)], st.items, Evaluate(st.items, s.rows[KeyText(k)], row).value)
  }

  ghost predicate RowFine(st: Statement, exact: bool, stored: map<Key, Item>, s: Sim, row: Record) {
    RowJudged(st, s, row) && (exact ==> RowKept(st, stored, s, row))
  }

  /** All through the list. */
  ghost predicate ListFine(st: Statement, exact: bool, stored: map<Key, Item>, s: Sim, rows: seq<Record>) {
    forall i :: 0 <= i < |rows| && SimAll(st, s, rows[..i]).Some? ==>
      RowFine(st, exact, stored, SimAll(st, s, rows[..i]).value, rows[i])
  }

  // ----- One SET list, on a row in memory and on the stored one -----

  /** The row in memory and the stored one hold the same values. */
  ghost predicate Mirror(r: Record, item: Item) {
    SameValues(r, Cells(item))
  }

  lemma {:induction false} EvaluateBlind(items: seq<SetItem>, a: Record, b: Record, row: Record)
    requires TypeBlind(items) && SameValues(a, b)
    ensures Evaluate(items, a, row).None? <==> Evaluate(items, b, row).None?
    ensures
      Evaluate(items, a, row).Some? ==>
        forall i :: 0 <= i < |items| ==>
          CellValue(Evaluate(items, a, row).value[i]) == CellValue(Evaluate(items, b, row).value[i])
  {
    if items != [] {
      var n := |items| - 1;
      assert TypeBlind(items[..n]) by {
        forall i, x: Record, y: Record, r: Record | 0 <= i < n && SameValues(x, y)
          ensures SameResult(items[..n][i].expr(x, r), items[..n][i].expr(y, r))
        {
          assert items[..n][i] == items[i];
        }
      }
      EvaluateBlind(items[..n], a, b, row);
      assert SameResult(items[n].expr(a, row), items[n].expr(b, row));
    }
  }

  ghost predicate ValuesAgree(v: seq<Cell>, w: seq<Cell>) {
    |v| == |w| && forall i :: 0 <= i < |v| ==> CellValue(v[i]) == CellValue(w[i])
  }

  lemma {:induction false} AssignMirrors(was: Record, item: Item, items: seq<SetItem>, v: seq<Cell>, w: seq<Cell>)
    requires Mirror(was, item) && ValuesAgree(v, w) && |v| == |items|
    ensures Mirror(Assign(was, items, v), StoreAssign(item, items, w))
  {
    hide Lower;
    if items != [] {
      var n := |items| - 1;
      AssignMirrors(was, item, items[..n], v[..n], w[..n]);
    }
  }

  lemma MirrorAt(r: Record, item: Item, c: string)
    requires Mirror(r, item)
    ensures ValueAt(r, c) == ValueAt(Cells(item), c)
  {
  }

  /** If nothing changed so far, the row is as it was, for `isSameCell` and by value. */
  lemma {:induction false} Unchanged(was: Record, items: seq<SetItem>, v: seq<Cell>, c: string)
    requires |v| == |items|
    ensures !Changes(was, items, v) ==> Same(At(was, c), At(Assign(was, items, v), c))
    ensures !ValueChanges(was, items, v) ==> ValueAt(was, c) == ValueAt(Assign(was, items, v), c)
  {
    hide Lower, Changes, ValueChanges;
    if items != [] {
      var n := |items| - 1;
      Unchanged(was, items[..n], v[..n], c);
      LastChange(was, items, v);
    }
  }

  lemma LastChange(was: Record, items: seq<SetItem>, v: seq<Cell>)
    requires |v| == |items| > 0
    ensures
      var n := |items| - 1;
      && (Changes(was, items, v) <==> Changes(was, items[..n], v[..n]) || !Same(At(was, Lower(items[n].column)), v[n]))
      && (ValueChanges(was, items, v) <==>
          ValueChanges(was, items[..n], v[..n]) || ValueAt(was, Lower(items[n].column)) != CellValue(v[n]))
  {
    hide Lower, Same, ValueAt;
    var n := |items| - 1;
    forall i | 0 <= i < n
      ensures items[..n][i] == items[i] && v[..n][i] == v[i]
    {
    }
  }

  lemma ClearFront(was: Record, items: seq<SetItem>, v: seq<Cell>)
    requires |v| == |items| > 0 && ClearAll(was, items, v)
    ensures
      var n := |items| - 1;
      && ClearAll(was, items[..n], v[..n])
      && Clear(At(Assign(was, items[..n], v[..n]), Lower(items[n].column)), v[n])
  {
    hide Lower, Clear, Assign;
    var n := |items| - 1;
    forall i | 0 <= i < n
      ensures Clear(At(Assign(was, items[..n][..i], v[..n][..i]), Lower(items[..n][i].column)), v[..n][i])
    {
      assert items[..n][..i] == items[..i] && v[..n][..i] == v[..i];
    }
  }

  /** Judged by value all along, the row counts as changed iff some value differs. */
  lemma {:induction false} ClearChanges(was: Record, items: seq<SetItem>, v: seq<Cell>)
    requires |v| == |items| && ClearAll(was, items, v)
    ensures Changes(was, items, v) <==> ValueChanges(was, items, v)
  {
    hide Lower, Changes, ValueChanges, ClearAll, Assign, Normal;
    if items == [] {
      NothingChanges(was, items, v);
    } else {
      var n := |items| - 1;
      ClearFront(was, items, v);
      ClearChanges(was, items[..n], v[..n]);
      LastChange(was, items, v);
      Unchanged(was, items[..n], v[..n], Lower(items[n].column));
    }
  }

  lemma NothingChanges(was: Record, items: seq<SetItem>, v: seq<Cell>)
    requires items == [] && |v| == |items|
    ensures !Changes(was, items, v) && !ValueChanges(was, items, v)
  {
  }

  lemma ValueChangesMirror(was: Record, item: Item, items: seq<SetItem>, v: seq<Cell>, w: seq<Cell>)
    requires Mirror(was, item) && ValuesAgree(v, w) && |v| == |items|
    ensures ValueChanges(was, items, v) <==> ValueChanges(Cells(item), items, w)
  {
    hide Lower, Mirror;
    forall i | 0 <= i < |items|
      ensures ValueAt(was, Lower(items[i].column)) == ValueAt(Cells(item), Lower(items[i].column))
    {
      MirrorAt(was, item, Lower(items[i].column));
    }
  }

  /** Writing the noted cells to the stored row gives the values of the row in memory. */
  ghost predicate Tracks(stored: Item, noted: Record, r: Record) {
    forall c :: ValueAt(Cells(stored + Attrs(noted)), c) == ValueAt(r, c)
  }

  lemma WrittenValue(stored: Item, noted: Record, c: string)
    ensures ValueAt(Cells(stored + Attrs(noted)), c) ==
            if c in noted then CellValue(noted[c]) else ValueAt(Cells(stored), c)
  {
  }

  lemma KeptFront(was: Record, items: seq<SetItem>, v: seq<Cell>)
    requires |v| == |items| > 0 && KeptAll(was, items, v)
    ensures
      var n := |items| - 1;
      var cell := At(Assign(was, items[..n], v[..n]), Lower(items[n].column));
      KeptAll(was, items[..n], v[..n]) && !NullMeetsZero(cell, v[n])
  {
    hide Lower, NullMeetsZero, Assign, At;
    var n := |items| - 1;
    forall i | 0 <= i < n
      ensures items[..n][..i] == items[..i] && v[..n][..i] == v[..i] && items[..n][i] == items[i] && v[..n][i] == v[i]
    {
    }
  }

  /** The noted cells are enough if no assignment is lost. */
  lemma {:induction false} KeptTracks(stored: Item, noted: Record, was: Record, items: seq<SetItem>, v: seq<Cell>)
    requires |v| == |items| && KeptAll(was, items, v) && Tracks(stored, noted, was)
    ensures Tracks(stored, Noted(was, noted, items, v), Assign(was, items, v))
  {
    if items != [] {
      hide Lower, KeptAll, Same, Cells, Attrs, NullMeetsZero;
      var n := |items| - 1;
      KeptFront(was, items, v);
      KeptTracks(stored, noted, was, items[..n], v[..n]);
      var c, front, row := Lower(items[n].column), Noted(was, noted, items[..n], v[..n]),
          Assign(was, items[..n], v[..n]);
      ClearIff(At(row, c), v[n]);
      TracksNext(stored, front, row, c, v[n]);
    }
  }

  lemma TracksNext(stored: Item, noted: Record, r: Record, column: string, value: Cell)
    requires Tracks(stored, noted, r)
    requires Same(At(r, column), value) ==> ValueAt(r, column) == CellValue(value)
    ensures Tracks(stored, if Same(At(r, column), value) then noted else noted[column := value], r[column := value])
  {
    hide Same, Cells, Attrs;
    var noted' := if Same(At(r, column), value) then noted else noted[column := value];
    forall c
      ensures ValueAt(Cells(stored + Attrs(noted')), c) == ValueAt(r[column := value], c)
    {
      assert ValueAt(Cells(stored + Attrs(noted)), c) == ValueAt(r, c);
      WrittenValue(stored, noted, c);
      WrittenValue(stored, noted', c);
    }
  }

  // ----- The whole list -----

  ghost predicate StoredByKey(st: Statement, stored: map<Key, Item>) {
    forall k :: k in stored ==> KeyCells(Cells(stored[k]), st.primaryKey) == k
  }

  /** The row in memory under the text `t` is the row of its key in the table, up to the types of cells. */
  ghost predicate RowMirrors(st: Statement, wanted: set<Key>, s: Sim, table: map<Key, Item>, t: string)
    requires t in s.rows
  {
    var k := KeyCells(s.rows[t], st.primaryKey);
    KeyText(k) == t && k in wanted && k in table && Mirror(s.rows[t], table[k])
  }

  /** The row with key `k` is in memory. */
  ghost predicate Held(st: Statement, s: Sim, k: Key) {
    KeyText(k) in s.rows && KeyCells(s.rows[KeyText(k)], st.primaryKey) == k
  }

  /** What the two bulk writes would leave of a stored row is what row by row has left; unless `exact` is
      asked for, that is left open for the rows in memory. */
  ghost predicate StoredTracks(st: Statement, exact: bool, stored: map<Key, Item>, wanted: set<Key>, s: Sim,
                               table: map<Key, Item>, k: Key)
    requires k in stored
  {
    k in table &&
    if k in wanted then Held(st, s, k) && (exact ==> Tracks(stored[k], NotedFor(s, KeyText(k)), s.rows[KeyText(k)]))
    else table[k] == stored[k]
  }

  ghost predicate Together(st: Statement, exact: bool, stored: map<Key, Item>, wanted: set<Key>, s: Sim,
                           table: map<Key, Item>) {
    && s.noted.Keys <= s.rows.Keys
    && (forall t :: t in s.rows ==> RowMirrors(st, wanted, s, table, t))
    && (forall k :: k in table ==> k in stored || Held(st, s, k))
    && (forall k :: k in stored ==> StoredTracks(st, exact, stored, wanted, s, table, k))
  }

  lemma MirrorItself(item: Item)
    ensures Mirror(Cells(item), item)
  {
  }

  lemma MirrorWritten(r: Record)
    ensures Mirror(r, Attrs(r))
  {
    forall c | c in r
      ensures CellValue(r[c]) == CellValue(Cells(Attrs(r))[c])
    {
    }
  }

  lemma TogetherStart(st: Statement, exact: bool, stored: map<Key, Item>, wanted: set<Key>)
    requires StoredByKey(st, stored) && Injective(wanted)
    ensures Injective(wanted * stored.Keys)
    ensures Together(st, exact, stored, wanted, Start(stored, wanted), stored)
  {
    hide KeyCells, KeyText, Cells, Mirror, Tracks, Injective;
    assert Injective(wanted * stored.Keys) by {
      SubsetInjective(wanted, wanted * stored.Keys);
    }
    var s := Start(stored, wanted);
    StartNotes(stored, wanted);
    forall t | t in s.rows
      ensures RowMirrors(st, wanted, s, stored, t)
    {
      var k := StartOnly(stored, wanted, t);
      StartAt(stored, wanted, k);
      MirrorItself(stored[k]);
    }
    forall k | k in stored
      ensures StoredTracks(st, exact, stored, wanted, s, stored, k)
    {
      if k in wanted {
        StartAt(stored, wanted, k);
        NothingNoted(stored[k]);
      }
    }
  }

  lemma SubsetInjective(keys: set<Key>, part: set<Key>)
    requires Injective(keys) && part <= keys
    ensures Injective(part)
  {
  }

  lemma NothingNoted(item: Item)
    ensures Tracks(item, map[], Cells(item))
  {
    assert item + Attrs(map[]) == item;
  }

  /** Another row in memory changes, or is added. */
  ghost predicate OtherRows(s: Sim, s': Sim, text: string) {
    && s'.rows.Keys == s.rows.Keys + {text} && s.noted.Keys <= s.rows.Keys && s'.noted.Keys <= s'.rows.Keys
    && forall t :: t in s.rows && t != text ==> s'.rows[t] == s.rows[t] && NotedFor(s', t) == NotedFor(s, t)
  }

  lemma RowMirrorsKept(st: Statement, wanted: set<Key>, s: Sim, s': Sim, table: map<Key, Item>, k: Key, item: Item,
                       t: string)
    requires OtherRows(s, s', KeyText(k)) && t in s.rows && t != KeyText(k) && RowMirrors(st, wanted, s, table, t)
    ensures RowMirrors(st, wanted, s', table[k := item], t)
  {
    hide KeyCells, KeyText, Mirror;
  }

  lemma StoredTracksKept(st: Statement, exact: bool, stored: map<Key, Item>, wanted: set<Key>, s: Sim, s': Sim,
                         table: map<Key, Item>, k: Key, item: Item, q: Key)
    requires OtherRows(s, s', KeyText(k)) && q in stored && q != k &&
             StoredTracks(st, exact, stored, wanted, s, table, q)
    requires KeyText(k) in s.rows ==> KeyCells(s.rows[KeyText(k)], st.primaryKey) == k
    ensures StoredTracks(st, exact, stored, wanted, s', table[k := item], q)
  {
    hide KeyCells, KeyText, Tracks;
  }

  lemma TogetherNext(st: Statement, exact: bool, stored: map<Key, Item>, wanted: set<Key>, s: Sim,
                     table: map<Key, Item>, s': Sim, k: Key, item: Item)
    requires Together(st, exact, stored, wanted, s, table) && OtherRows(s, s', KeyText(k)) && k in wanted
    requires KeyText(k) in s.rows ==> Held(st, s, k)
    requires Held(st, s', k) && Mirror(s'.rows[KeyText(k)], item)
    requires exact && k in stored ==> Tracks(stored[k], NotedFor(s', KeyText(k)), s'.rows[KeyText(k)])
    ensures Together(st, exact, stored, wanted, s', table[k := item])
  {
    hide KeyCells, KeyText, Mirror, Tracks, RowMirrors, StoredTracks, NotedFor;
    var table' := table[k := item];
    forall t | t in s'.rows
      ensures RowMirrors(st, wanted, s', table', t)
    {
      if t == KeyText(k) {
        RowMirrorsHere(st, wanted, s', table', k);
      } else {
        RowMirrorsKept(st, wanted, s, s', table, k, item, t);
      }
    }
    forall q | q in stored
      ensures StoredTracks(st, exact, stored, wanted, s', table', q)
    {
      if q == k {
        StoredTracksHere(st, exact, stored, wanted, s', table', k);
      } else {
        StoredTracksKept(st, exact, stored, wanted, s, s', table, k, item, q);
      }
    }
    forall q | q in table'
      ensures q in stored || Held(st, s', q)
    {
      assert q in table ==> q in stored || Held(st, s, q);
    }
  }

  lemma RowMirrorsHere(st: Statement, wanted: set<Key>, s: Sim, table: map<Key, Item>, k: Key)
    requires Held(st, s, k) && k in wanted && k in table && Mirror(s.rows[KeyText(k)], table[k])
    ensures RowMirrors(st, wanted, s, table, KeyText(k))
  {
  }

  lemma StoredTracksHere(st: Statement, exact: bool, stored: map<Key, Item>, wanted: set<Key>, s: Sim,
                         table: map<Key, Item>, k: Key)
    requires k in stored && k in table && k in wanted && Held(st, s, k)
    requires exact ==> Tracks(stored[k], NotedFor(s, KeyText(k)), s.rows[KeyText(k)])
    ensures StoredTracks(st, exact, stored, wanted, s, table, k)
  {
  }

  /** A key met for the first time. */
  lemma TogetherNew(st: Statement, exact: bool, stored: map<Key, Item>, wanted: set<Key>, s: Sim, table: map<Key, Item>,
                    row: Record)
    requires Together(st, exact, stored, wanted, s, table)
    requires var k := KeyCells(row, st.primaryKey); k in wanted && KeyText(k) !in s.rows
    ensures
      var k := KeyCells(row, st.primaryKey);
      && k !in table
      && Together(st, exact, stored, wanted, s.(rows := s.rows[KeyText(k) := row], affected := s.affected + 1),
                  table[k := Attrs(row)])
  {
    hide KeyCells, KeyText, Mirror, Tracks, Attrs, RowMirrors;
    var k := KeyCells(row, st.primaryKey);
    var s' := s.(rows := s.rows[KeyText(k) := row], affected := s.affected + 1);
    assert k in stored ==> StoredTracks(st, exact, stored, wanted, s, table, k);
    MirrorWritten(row);
    TogetherNext(st, exact, stored, wanted, s, table, s', k, Attrs(row));
  }

  /** What one listed row does to both, when it is there already. */
  lemma UpdateTogether(st: Statement, exact: bool, stored: map<Key, Item>, wanted: set<Key>, s: Sim, o: Outcome,
                       row: Record)
    requires KeepsKey(st) && TypeBlind(st.items) && Injective(wanted)
    requires Together(st, exact, stored, wanted, s, o.table) && s.affected == o.affected && s.duplicates == o.duplicates
    requires var k := KeyCells(row, st.primaryKey); k in wanted && KeyText(k) in s.rows
    requires exact ==> RowKept(st, stored, s, row)
    ensures StepAgrees(st, exact, stored, wanted, s, o, row)
  {
    hide KeyText, Mirror, Tracks, TypeBlind, KeyCells, Assign, Noted, StoreAssign, Changes, ValueChanges, KeptAll,
         Misjudged, Evaluate, Together, KeepsKey, Cells;
    var k := KeyCells(row, st.primaryKey);
    var t := KeyText(k);
    FoundIs(st, exact, stored, wanted, s, o.table, k);
    var was, item := s.rows[t], o.table[k];
    UpdateMirrors(st, was, item, row);
    if Evaluate(st.items, was, row).Some? {
      var v, w := Evaluate(st.items, was, row).value, Evaluate(st.items, Cells(item), row).value;
      var s' := SimRow(st, s, row).value;
      MisjudgedIff(was, st.items, v);
      if exact && k in stored {
        KeptTracks(stored[k], NotedFor(s, t), was, st.items, v);
      }
      NotedKeys(st, exact, stored, wanted, s, o.table);
      TogetherNext(st, exact, stored, wanted, s, o.table, s', k, StoreAssign(item, st.items, w));
    }
  }

  /** The SET list sees the same, and does the same, on both sides. */
  lemma UpdateMirrors(st: Statement, was: Record, item: Item, row: Record)
    requires KeepsKey(st) && TypeBlind(st.items) && Mirror(was, item)
    ensures Evaluate(st.items, was, row).None? <==> Evaluate(st.items, Cells(item), row).None?
    ensures
      Evaluate(st.items, was, row).Some? ==>
        var v, w := Evaluate(st.items, was, row).value, Evaluate(st.items, Cells(item), row).value;
        && (ValueChanges(was, st.items, v) <==> ValueChanges(Cells(item), st.items, w))
        && Mirror(Assign(was, st.items, v), StoreAssign(item, st.items, w))
        && KeyCells(Assign(was, st.items, v), st.primaryKey) == KeyCells(was, st.primaryKey)
  {
    hide TypeBlind, KeyCells, Assign, StoreAssign, ValueChanges, Evaluate, KeepsKey, Cells, SameValues;
    EvaluateBlind(st.items, was, Cells(item), row);
    if Evaluate(st.items, was, row).Some? {
      var v, w := Evaluate(st.items, was, row).value, Evaluate(st.items, Cells(item), row).value;
      assert ValuesAgree(v, w);
      AssignMirrors(was, item, st.items, v, w);
      ValueChangesMirror(was, item, st.items, v, w);
      AssignKeepsKey(st, was, v, |st.items|);
      assert st.items[..|st.items|] == st.items && v[..|st.items|] == v;
    }
  }

  lemma NotedKeys(st: Statement, exact: bool, stored: map<Key, Item>, wanted: set<Key>, s: Sim, table: map<Key, Item>)
    requires Together(st, exact, stored, wanted, s, table)
    ensures s.noted.Keys <= s.rows.Keys
  {
  }

  /** With injective texts, a text that is held belongs to the key looked for. */
  lemma FoundIs(st: Statement, exact: bool, stored: map<Key, Item>, wanted: set<Key>, s: Sim, table: map<Key, Item>,
                k: Key)
    requires Together(st, exact, stored, wanted, s, table) && Injective(wanted) && k in wanted && KeyText(k) in s.rows
    ensures Held(st, s, k) && k in table && Mirror(s.rows[KeyText(k)], table[k])
    ensures exact && k in stored ==> Tracks(stored[k], NotedFor(s, KeyText(k)), s.rows[KeyText(k)])
  {
    hide KeyText, Mirror, Tracks, KeyCells;
    assert RowMirrors(st, wanted, s, table, KeyText(k));
    assert k in stored ==> StoredTracks(st, exact, stored, wanted, s, table, k);
  }

  /** A listed row fails in both or moves both alike, and the counts with them iff it is judged the right way. */
  ghost predicate StepAgrees(st: Statement, exact: bool, stored: map<Key, Item>, wanted: set<Key>, s: Sim, o: Outcome,
                             row: Record) {
    var s', o' := SimRow(st, s, row), UpsertRow(st, o, row);
    && s'.None? == o'.None?
    && (s'.Some? && o'.Some? ==>
          && Together(st, exact, stored, wanted, s'.value, o'.value.table)
          && (s'.value.affected == o'.value.affected <==> RowJudged(st, s, row))
          && s'.value.duplicates == o'.value.duplicates)
  }

  lemma RowTogether(st: Statement, exact: bool, stored: map<Key, Item>, wanted: set<Key>, s: Sim, o: Outcome,
                    row: Record)
    requires KeepsKey(st) && TypeBlind(st.items) && Injective(wanted)
    requires Together(st, exact, stored, wanted, s, o.table) && s.affected == o.affected && s.duplicates == o.duplicates
    requires KeyCells(row, st.primaryKey) in wanted && (exact ==> RowKept(st, stored, s, row))
    ensures StepAgrees(st, exact, stored, wanted, s, o, row)
  {
    hide KeyText, TypeBlind, KeyCells, Together, KeepsKey, RowKept, Misjudged, Injective, Evaluate;
    var k := KeyCells(row, st.primaryKey);
    if KeyText(k) in s.rows {
      UpdateTogether(st, exact, stored, wanted, s, o, row);
    } else {
      TogetherNew(st, exact, stored, wanted, s, o.table, row);
    }
  }

  ghost predicate ListAgrees(st: Statement, exact: bool, stored: map<Key, Item>, wanted: set<Key>, s: Sim, o: Outcome,
                             rows: seq<Record>) {
    var s', o' := SimAll(st, s, rows), UpsertAll(st, o, rows);
    && s'.None? == o'.None?
    && (s'.Some? && o'.Some? ==>
          && Together(st, exact, stored, wanted, s'.value, o'.value.table)
          && s'.value.affected == o'.value.affected && s'.value.duplicates == o'.value.duplicates)
  }

  lemma {:induction false} ListTogether(st: Statement, exact: bool, stored: map<Key, Item>, wanted: set<Key>, s: Sim,
                                        o: Outcome, rows: seq<Record>)
    requires KeepsKey(st) && TypeBlind(st.items) && Injective(wanted)
    requires Together(st, exact, stored, wanted, s, o.table) && s.affected == o.affected && s.duplicates == o.duplicates
    requires forall i :: 0 <= i < |rows| ==> KeyCells(rows[i], st.primaryKey) in wanted
    requires ListFine(st, exact, stored, s, rows)
    ensures ListAgrees(st, exact, stored, wanted, s, o, rows)
  {
    hide TypeBlind, KeyCells, Together, KeepsKey, RowJudged, RowKept, Injective, SimRow, UpsertRow;
    if rows != [] {
      var n := |rows| - 1;
      assert ListFine(st, exact, stored, s, rows[..n]) by {
        assert forall i :: 0 <= i < n ==> rows[..n][..i] == rows[..i];
      }
      ListTogether(st, exact, stored, wanted, s, o, rows[..n]);
      if SimAll(st, s, rows[..n]).Some? {
        var front, back := SimAll(st, s, rows[..n]).value, UpsertAll(st, o, rows[..n]).value;
        RowTogether(st, exact, stored, wanted, front, back, rows[n]);
      }
    }
  }

  lemma WrittenSame(st: Statement, stored: map<Key, Item>, wanted: set<Key>, s: Sim, table: map<Key, Item>)
    requires Together(st, true, stored, wanted, s, table)
    ensures SameTable(Written(st, stored, wanted, s), table)
  {
    hide KeyCells, KeyText, Mirror, Tracks, Attrs, Cells;
    var written := Written(st, stored, wanted, s);
    forall k | k in written
      ensures k in table && SameItem(written[k], table[k])
    {
      WrittenRowSame(st, stored, wanted, s, table, k);
    }
    forall k | k in table
      ensures k in written
    {
      if k !in stored {
        assert Held(st, s, k);
        assert forall q :: q in stored && q in wanted ==> StoredTracks(st, true, stored, wanted, s, table, q);
      }
    }
  }

  lemma WrittenRowSame(st: Statement, stored: map<Key, Item>, wanted: set<Key>, s: Sim, table: map<Key, Item>, k: Key)
    requires Together(st, true, stored, wanted, s, table) && k in Written(st, stored, wanted, s)
    ensures k in table && SameItem(Written(st, stored, wanted, s)[k], table[k])
  {
    hide KeyCells, KeyText, Mirror, Tracks, Attrs, Cells, ValueAt;
    if k in stored {
      assert StoredTracks(st, true, stored, wanted, s, table, k);
      if k in wanted {
        assert RowMirrors(st, wanted, s, table, KeyText(k));
        TrackedSame(stored[k], NotedFor(s, KeyText(k)), s.rows[KeyText(k)], table[k]);
      }
    } else {
      var t :| t in s.rows && (forall q :: q in stored && q in wanted ==> KeyText(q) != t) &&
        KeyCells(s.rows[t], st.primaryKey) == k;
      assert RowMirrors(st, wanted, s, table, t);
      MirrorsSame(s.rows[t], table[k]);
    }
  }

  lemma TrackedSame(stored: Item, noted: Record, r: Record, item: Item)
    requires Tracks(stored, noted, r) && Mirror(r, item)
    ensures SameItem(stored + Attrs(noted), item)
  {
    forall c
      ensures ValueAt(Cells(stored + Attrs(noted)), c) == ValueAt(Cells(item), c)
    {
      MirrorAt(r, item, c);
    }
  }

  lemma MirrorsSame(r: Record, item: Item)
    requires Mirror(r, item)
    ensures SameItem(Attrs(r), item)
  {
    MirrorWritten(r);
    forall c
      ensures ValueAt(Cells(Attrs(r)), c) == ValueAt(Cells(item), c)
    {
      MirrorAt(r, item, c);
      MirrorAt(r, Attrs(r), c);
    }
  }

  /** A statement on a table, and rows whose keys have texts of their own. */
  ghost predicate Admissible(st: Statement, stored: map<Key, Item>, rows: seq<Record>) {
    StoredByKey(st, stored) && Injective(KeysOf(st, rows)) && Injective(KeysOf(st, rows) * stored.Keys)
  }

  /** Both fail, or both give the same counts. */
  ghost predicate CountsAgree(a: Option<Result>, b: Option<Result>) {
    a.None? == b.None? && (a.Some? && b.Some? ==> a.value.counts == b.value.counts)
  }

  lemma BatchCounts(st: Statement, exact: bool, stored: map<Key, Item>, rows: seq<Record>)
    requires KeepsKey(st) && TypeBlind(st.items) && Admissible(st, stored, rows)
    requires ListFine(st, exact, stored, Start(stored, KeysOf(st, rows)), rows)
    ensures CountsAgree(Batch(st, stored, rows), RowByRow(st, stored, rows))
    ensures exact ==> Agree(Batch(st, stored, rows), RowByRow(st, stored, rows))
  {
    hide TypeBlind, KeyCells, Together, KeepsKey, SimAll, UpsertAll, Written, ListFine, Injective, StoredByKey;
    var wanted := KeysOf(st, rows);
    TogetherStart(st, exact, stored, wanted);
    StartNotes(stored, wanted);
    var s, o := Start(stored, wanted), Outcome(stored, 0, 0);
    ListTogether(st, exact, stored, wanted, s, o, rows);
    if exact && SimAll(st, s, rows).Some? {
      WrittenSame(st, stored, wanted, SimAll(st, s, rows).value, UpsertAll(st, o, rows).value.table);
    }
  }

  /** As long as no update is misjudged and no assignment to a stored row is lost, the batch is the same as
      upserting row by row: it fails iff that fails, and otherwise gives the same values in every cell and the
      same two counts. */
  lemma BatchIsRowByRow(st: Statement, stored: map<Key, Item>, rows: seq<Record>)
    requires KeepsKey(st) && TypeBlind(st.items) && Admissible(st, stored, rows)
    requires ListFine(st, true, stored, Start(stored, KeysOf(st, rows)), rows)
    ensures Agree(Batch(st, stored, rows), RowByRow(st, stored, rows))
  {
    BatchCounts(st, true, stored, rows);
  }

  // ----- A condition on the statement and the rows alone -----

  ghost predicate NoNumericNull(r: Record) {
    forall c :: c in r ==> r[c] != NumberCell(None)
  }

  /** No SET expression gives a numeric NULL. */
  ghost predicate NeverNumericNull(items: seq<SetItem>) {
    forall i, a: Record, row: Record {:trigger items[i].expr(a, row)} ::
      0 <= i < |items| ==> items[i].expr(a, row) != Some(NumberCell(None))
  }

  lemma {:induction false} NoNullValues(items: seq<SetItem>, a: Record, row: Record)
    requires NeverNumericNull(items) && Evaluate(items, a, row).Some?
    ensures NumberCell(None) !in Evaluate(items, a, row).value
  {
    if items != [] {
      var n := |items| - 1;
      assert NeverNumericNull(items[..n]) by {
        assert forall i :: 0 <= i < n ==> items[..n][i] == items[i];
      }
      NoNullValues(items[..n], a, row);
    }
  }

  lemma {:induction false} NoNullAssigned(was: Record, items: seq<SetItem>, v: seq<Cell>)
    requires |v| == |items| && NoNumericNull(was) && NumberCell(None) !in v
    ensures NoNumericNull(Assign(was, items, v)) && ClearAll(was, items, v)
  {
    hide Lower, Clear, At;
    if items != [] {
      hide ClearAll;
      var n := |items| - 1;
      NoNullAssigned(was, items[..n], v[..n]);
      assert v[n] in v;
      PlainClear(Assign(was, items[..n], v[..n]), Lower(items[n].column), v[n]);
      ClearAllNext(was, items, v);
    }
  }

  lemma PlainClear(r: Record, c: string, value: Cell)
    requires NoNumericNull(r) && value != NumberCell(None)
    ensures Clear(At(r, c), value)
  {
    ClearIff(At(r, c), value);
  }

  lemma ClearAllNext(was: Record, items: seq<SetItem>, v: seq<Cell>)
    requires |v| == |items| > 0
    requires
      var n := |items| - 1;
      ClearAll(was, items[..n], v[..n]) && Clear(At(Assign(was, items[..n], v[..n]), Lower(items[n].column)), v[n])
    ensures ClearAll(was, items, v)
  {
    hide Lower, Clear, At, Assign;
    var n := |items| - 1;
    forall i | 0 <= i < |items|
      ensures Clear(At(Assign(was, items[..i], v[..i]), Lower(items[i].column)), v[i])
    {
      if i < n {
        assert items[..n][..i] == items[..i] && v[..n][..i] == v[..i] && items[..n][i] == items[i] && v[..n][i] == v[i];
      }
    }
  }

  lemma {:induction false} NoNullInMemory(st: Statement, s: Sim, rows: seq<Record>, n: nat)
    requires NeverNumericNull(st.items) && n <= |rows| && SimAll(st, s, rows[..n]).Some?
    requires forall t :: t in s.rows ==> NoNumericNull(s.rows[t])
    requires forall i :: 0 <= i < |rows| ==> NoNumericNull(rows[i])
    ensures forall t :: t in SimAll(st, s, rows[..n]).value.rows ==>
            NoNumericNull(SimAll(st, s, rows[..n]).value.rows[t])
  {
    hide NeverNumericNull, KeyCells, KeyText, Assign, NoNumericNull, Noted, Changes;
    if n > 0 {
      SimNext(st, s, rows, n - 1);
      NoNullInMemory(st, s, rows, n - 1);
      var front, t := SimAll(st, s, rows[..n - 1]).value, KeyText(KeyCells(rows[n - 1], st.primaryKey));
      if t in front.rows {
        NoNullValues(st.items, front.rows[t], rows[n - 1]);
        NoNullAssigned(front.rows[t], st.items, Evaluate(st.items, front.rows[t], rows[n - 1]).value);
      }
    }
  }

  /** It is the same if no listed cell and no value of the SET list is a numeric NULL. */
  lemma WithoutNumericNull(st: Statement, stored: map<Key, Item>, rows: seq<Record>)
    requires KeepsKey(st) && TypeBlind(st.items) && Admissible(st, stored, rows)
    requires NeverNumericNull(st.items) && forall i :: 0 <= i < |rows| ==> NoNumericNull(rows[i])
    ensures Agree(Batch(st, stored, rows), RowByRow(st, stored, rows))
  {
    hide TypeBlind, KeyCells, KeepsKey, KeyText, NeverNumericNull, NoNumericNull, Agree, Injective, StoredByKey,
         ClearAll, KeptAll,
         Misjudged;
    var s := Start(stored, KeysOf(st, rows));
    forall t | t in s.rows
      ensures NoNumericNull(s.rows[t])
    {
      var k := StartOnly(stored, KeysOf(st, rows), t);
      StartAt(stored, KeysOf(st, rows), k);
      ReadWithoutNull(stored[k]);
    }
    forall i | 0 <= i < |rows| && SimAll(st, s, rows[..i]).Some?
      ensures RowFine(st, true, stored, SimAll(st, s, rows[..i]).value, rows[i])
    {
      NoNullInMemory(st, s, rows, i);
      var now, t := SimAll(st, s, rows[..i]).value, KeyText(KeyCells(rows[i], st.primaryKey));
      if t in now.rows && Evaluate(st.items, now.rows[t], rows[i]).Some? {
        NoNullValues(st.items, now.rows[t], rows[i]);
        NoNullAssigned(now.rows[t], st.items, Evaluate(st.items, now.rows[t], rows[i]).value);
        ClearChanges(now.rows[t], st.items, Evaluate(st.items, now.rows[t], rows[i]).value);
        MisjudgedIff(now.rows[t], st.items, Evaluate(st.items, now.rows[t], rows[i]).value);
        ClearKept(now.rows[t], st.items, Evaluate(st.items, now.rows[t], rows[i]).value);
      }
    }
    BatchIsRowByRow(st, stored, rows);
  }

  lemma ClearKept(was: Record, items: seq<SetItem>, v: seq<Cell>)
    requires |v| == |items| && ClearAll(was, items, v)
    ensures KeptAll(was, items, v)
  {
    hide Lower, Clear, At, Assign, NullMeetsZero;
    forall i | 0 <= i < |items|
      ensures !NullMeetsZero(At(Assign(was, items[..i], v[..i]), Lower(items[i].column)), v[i])
    {
      ClearIff(At(Assign(was, items[..i], v[..i]), Lower(items[i].column)), v[i]);
    }
  }

  lemma ReadWithoutNull(item: Item)
    ensures NoNumericNull(Cells(item))
  {
  }
}
