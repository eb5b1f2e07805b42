/** Two SET lists whose values can be a numeric NULL: one that goes wrong, and one that does not. */
module UpsertExamples {
  import opened Common
  import opened Upsert
  import opened UpsertLaws
  import opened UpsertExact

  // ----- Two listed rows for one stored row, and one assignment -----

  lemma EvaluateOne(item: SetItem, was: Record, row: Record)
    ensures Evaluate([item], was, row) ==
            match item.expr(was, row)
            case None => None
            case Some(cell) => Some([cell])
  {
    assert [item][..0] == [] && Evaluate([], was, row) == Some([]);
    assert forall cell: Cell :: [] + [cell] == [cell];
  }

  /** What one assignment does to a row in memory, and to a stored one. */
  lemma AssignOne(item: SetItem, was: Record, noted: Record, stored: Item, v: Cell)
    ensures
      var c := Lower(item.column);
      && Assign(was, [item], [v]) == was[c := v] && StoreAssign(stored, [item], [v]) == stored[c := ToAttr(v)]
      && Noted(was, noted, [item], [v]) == (if Same(At(was, c), v) then noted else noted[c := v])
      && (Changes(was, [item], [v]) <==> !Same(At(was, c), v))
      && (ValueChanges(was, [item], [v]) <==> ValueAt(was, c) != CellValue(v))
  {
    hide Lower, Same;
    assert [item][..0] == [] && [v][..0] == [];
    assert Assign(was, [], []) == was && StoreAssign(stored, [], []) == stored && Noted(was, noted, [], []) == noted;
    OneAssignment(was, [item], [v]);
  }

  /** One update of the only row in memory, whose cell `c` becomes `v`. */
  lemma OneUpdate(st: Statement, s: Sim, row: Record, t: string, was: Record, v: Cell)
    requires |st.items| == 1 && s.rows == map[t := was] && s.noted.Keys <= {t}
    requires KeyText(KeyCells(row, st.primaryKey)) == t && st.items[0].expr(was, row) == Some(v)
    ensures
      var c := Lower(st.items[0].column);
      var noted := if Same(At(was, c), v) then NotedFor(s, t) else NotedFor(s, t)[c := v];
      SimRow(st, s, row) ==
      Some(Sim(map[t := was[c := v]], map[t := noted], s.affected + (if Same(At(was, c), v) then 1 else 2),
               s.duplicates + 1))
  {
    hide KeyCells, KeyText, Evaluate, Assign, Noted, Changes, Lower, Same;
    var item, c := st.items[0], Lower(st.items[0].column);
    assert st.items == [item];
    EvaluateOne(item, was, row);
    AssignOne(item, was, NotedFor(s, t), map[], v);
    var noted := if Same(At(was, c), v) then NotedFor(s, t) else NotedFor(s, t)[c := v];
    assert s.rows[t := was[c := v]] == map[t := was[c := v]] && s.noted[t := noted] == map[t := noted];
  }

  /** Two updates of one row: the cell `c` goes from what it was to `v`, then to `w`. */
  lemma TwoUpdates(st: Statement, s: Sim, rows: seq<Record>, t: string, was: Record, v: Cell, w: Cell)
    requires |st.items| == 1 && |rows| == 2 && s.rows == map[t := was] && s.noted == map[]
    requires s.affected == s.duplicates == 0
    requires forall i :: 0 <= i < 2 ==> KeyText(KeyCells(rows[i], st.primaryKey)) == t
    requires
      var c := Lower(st.items[0].column);
      st.items[0].expr(was, rows[0]) == Some(v) && st.items[0].expr(was[c := v], rows[1]) == Some(w)
    ensures
      var c := Lower(st.items[0].column);
      var noted: Record := if Same(At(was, c), v) then map[] else map[c := v];
      var changes := (if Same(At(was, c), v) then 1 else 2) + (if Same(v, w) then 1 else 2);
      SimAll(st, s, rows) ==
      Some(Sim(map[t := was[c := v][c := w]], map[t := if Same(v, w) then noted else noted[c := w]], changes, 2))
  {
    hide KeyCells, KeyText, Lower, Same, SimRow;
    var c := Lower(st.items[0].column);
    OneUpdate(st, s, rows[0], t, was, v);
    var s1 := SimRow(st, s, rows[0]).value;
    OneUpdate(st, s1, rows[1], t, was[c := v], w);
    assert rows[..1] == [rows[0]] && rows[..1][..0] == [] && SimAll(st, s, []) == Some(s);
    assert SimAll(st, s, rows[..1]) == Some(s1) && SimAll(st, s, rows) == SimRow(st, s1, rows[1]);
    assert At(was[c := v], c) == v;
  }

  lemma TwoUpdatesBatch(st: Statement, stored: map<Key, Item>, rows: seq<Record>, k: Key, v: Cell, w: Cell)
    requires |st.items| == 1 && |rows| == 2 && stored.Keys == {k}
    requires forall i :: 0 <= i < 2 ==> KeyCells(rows[i], st.primaryKey) == k
    requires
      var c, was := Lower(st.items[0].column), Cells(stored[k]);
      st.items[0].expr(was, rows[0]) == Some(v) && st.items[0].expr(was[c := v], rows[1]) == Some(w)
    ensures KeysOf(st, rows) == {k} && Injective({k} * stored.Keys)
    ensures
      var c := Lower(st.items[0].column);
      var was := At(Cells(stored[k]), c);
      var noted: Record := if Same(was, v) then map[] else map[c := v];
      var changes := (if Same(was, v) then 1 else 2) + (if Same(v, w) then 1 else 2);
      Batch(st, stored, rows) ==
      Some(Result(map[k := stored[k] + Attrs(if Same(v, w) then noted else noted[c := w])], Counts(changes, 2)))
  {
    hide KeyCells, KeyText, Start, SimAll, Written, Same, Lower, Cells, Attrs;
    assert KeysOf(st, rows) == {k} by {
      assert KeyCells(rows[0], st.primaryKey) == k;
    }
    var s, t := Start(stored, {k}), KeyText(k);
    StartAt(stored, {k}, k);
    StartNotes(stored, {k});
    forall u | u in s.rows
      ensures u == t
    {
      var q := StartOnly(stored, {k}, u);
    }
    assert s.rows == map[t := Cells(stored[k])];
    TwoUpdates(st, s, rows, t, Cells(stored[k]), v, w);
    var s' := SimAll(st, s, rows).value;
    OneRowWritten(st, stored, s', k);
    assert stored[k := stored[k] + Attrs(NotedFor(s', t))] == map[k := stored[k] + Attrs(NotedFor(s', t))];
  }

  lemma OneRowWritten(st: Statement, stored: map<Key, Item>, s: Sim, k: Key)
    requires k in stored && s.rows.Keys == {KeyText(k)}
    ensures Written(st, stored, {k}, s) == stored[k := stored[k] + Attrs(NotedFor(s, KeyText(k)))]
  {
    hide KeyCells, KeyText, Attrs;
    assert NewKeys(st, stored, {k}, s) == {};
  }

  lemma TwoUpdatesReference(st: Statement, stored: map<Key, Item>, rows: seq<Record>, k: Key, v: Cell, w: Cell)
    requires |st.items| == 1 && |rows| == 2 && stored.Keys == {k}
    requires forall i :: 0 <= i < 2 ==> KeyCells(rows[i], st.primaryKey) == k
    requires
      var c := Lower(st.items[0].column);
      && st.items[0].expr(Cells(stored[k]), rows[0]) == Some(v)
      && st.items[0].expr(Cells(stored[k][c := ToAttr(v)]), rows[1]) == Some(w)
    ensures
      var c := Lower(st.items[0].column);
      var changes := (if ValueAt(Cells(stored[k]), c) == CellValue(v) then 1 else 2) +
          (if CellValue(v) == CellValue(w) then 1 else 2);
      RowByRow(st, stored, rows) ==
      Some(Result(map[k := stored[k][c := ToAttr(v)][c := ToAttr(w)]], Counts(changes, 2)))
  {
    hide KeyCells, Evaluate, StoreAssign, ValueChanges, Lower, Assign, Noted, Changes, ToAttr;
    var item, c, o := st.items[0], Lower(st.items[0].column), Outcome(stored, 0, 0);
    assert st.items == [item];
    var first := stored[k][c := ToAttr(v)];
    EvaluateOne(item, Cells(stored[k]), rows[0]);
    EvaluateOne(item, Cells(first), rows[1]);
    AssignOne(item, Cells(stored[k]), map[], stored[k], v);
    AssignOne(item, Cells(first), map[], first, w);
    ReadBack(stored[k], c, v);
    assert rows[..1] == [rows[0]] && rows[..1][..0] == [] && UpsertAll(st, o, []) == Some(o);
    assert UpsertAll(st, o, rows[..1]) == UpsertRow(st, o, rows[0]);
    var o1 := UpsertRow(st, o, rows[0]).value;
    assert o1.table == map[k := first];
    assert UpsertAll(st, o, rows) == UpsertRow(st, o1, rows[1]);
    assert o1.table[k := first[c := ToAttr(w)]] == map[k := first[c := ToAttr(w)]];
  }

  lemma ReadBack(item: Item, c: string, v: Cell)
    ensures ValueAt(Cells(item[c := ToAttr(v)]), c) == CellValue(v)
  {
  }

  // ----- Two statements -----

  /** `VALUES(b) / VALUES(c)` on whole numbers: a division by zero is a numeric NULL. */
  function Quotient(was: Record, row: Record): Option<Cell> {
    match (ValueAt(row, "b"), ValueAt(row, "c"))
    case (Num(b), Num(c)) => Some(NumberCell(if c == 0 then None else Some(b / c)))
    case _ => Some(NumberCell(None))
  }

  const BY_ID: seq<string> := ["id"]

  /** `... ON DUPLICATE KEY UPDATE a = VALUES(b) / VALUES(c)` on a table with the key `id`. */
  function DivideStatement(): Statement {
    Statement(BY_ID, [SetItem("a", Quotient)])
  }

  function Listed(b: int, c: int): Record {
    map["id" := NumberCell(Some(1)), "b" := NumberCell(Some(b)), "c" := NumberCell(Some(c))]
  }

  function StoredRow(a: Attr): Item {
    map["id" := NumberAttr(1), "a" := a]
  }

  lemma Spellings()
    ensures Lower("id") == "id" && Lower("a") == "a" && Lower("b") == "b" && Lower("c") == "c"
  {
  }

  lemma DivideKeys(b: int, c: int, a: Attr)
    ensures KeyCells(Listed(b, c), BY_ID) == [Num(1)] && KeyCells(Cells(StoredRow(a)), BY_ID) == [Num(1)]
    ensures KeepsKey(DivideStatement()) && TypeBlind(DivideStatement().items) && AssignsOnce(DivideStatement().items)
  {
    Spellings();
  }

  /** Stored (id 1, a 5), listed (1, 1, 0) and (1, 0, 1) for (id, b, c): the first row makes `a` a numeric
      NULL, the second 0, which is taken for the same. The batch leaves NULL and counts 3 rows; row by row
      leaves 0 and counts 4. */
  lemma DivisionByZero()
    ensures
      var stored, rows := map[[Num(1)] := StoredRow(NumberAttr(5))], [Listed(1, 0), Listed(0, 1)];
      && KeepsKey(DivideStatement()) && TypeBlind(DivideStatement().items)
      && Admissible(DivideStatement(), stored, rows)
      && Batch(DivideStatement(), stored, rows) ==
         Some(Result(map[[Num(1)] := StoredRow(NullAttr)], Counts(3, 2)))
      && RowByRow(DivideStatement(), stored, rows) ==
         Some(Result(map[[Num(1)] := StoredRow(NumberAttr(0))], Counts(4, 2)))
  {
    hide KeyCells, KeyText, Batch, RowByRow, TypeBlind, KeepsKey;
    var st, k, five := DivideStatement(), [Num(1)], StoredRow(NumberAttr(5));
    var stored, rows := map[k := five], [Listed(1, 0), Listed(0, 1)];
    DivideKeys(1, 0, NumberAttr(5));
    DivideKeys(0, 1, NumberAttr(5));
    Spellings();
    var v, w := NumberCell(None), NumberCell(Some(0));
    assert forall was :: Quotient(was, Listed(1, 0)) == Some(v) && Quotient(was, Listed(0, 1)) == Some(w);
    TwoUpdatesBatch(st, stored, rows, k, v, w);
    TwoUpdatesReference(st, stored, rows, k, v, w);
    assert five + Attrs(map["a" := v]) == StoredRow(NullAttr);
    assert five["a" := ToAttr(v)]["a" := ToAttr(w)] == StoredRow(NumberAttr(0));
  }

  /** `IF(a IS NULL OR a = 0, 7, 1 / 0)` */
  function SevenOrNull(was: Record, row: Record): Option<Cell> {
    Some(if ValueAt(was, "a") == Nothing || ValueAt(was, "a") == Num(0) then NumberCell(Some(7)) else NumberCell(None))
  }

  /** A SET list that can give a numeric NULL need not go wrong: this one does, for every row whose `a` is
      neither NULL nor 0, and the batch is right for every table and every list. */
  lemma HarmlessNull()
    ensures
      var st := Statement(BY_ID, [SetItem("a", SevenOrNull)]);
      && KeepsKey(st) && TypeBlind(st.items) && NeverMeets(st) && !NeverNumericNull(st.items)
  {
    var st := Statement(BY_ID, [SetItem("a", SevenOrNull)]);
    Spellings();
    forall was: Record, row: Record
      ensures Evaluate(st.items, was, row) == Some([SevenOrNull(was, row).value])
    {
      EvaluateOne(st.items[0], was, row);
    }
    assert TypeBlind(st.items) by {
      forall i, a: Record, b: Record, row: Record | 0 <= i < |st.items| && SameValues(a, b)
        ensures SameResult(st.items[i].expr(a, row), st.items[i].expr(b, row))
      {
      }
    }
    var one: Record := map["a" := NumberCell(Some(1))];
    assert st.items[0].expr(one, one) == Some(NumberCell(None));
  }
}
