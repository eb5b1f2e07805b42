/** Exactly when the batched upsert is the same as upserting row by row. */
module UpsertExact {
  import opened Common
  import opened Upsert
  import opened UpsertLaws

  // ----- For all tables and lists -----

  /** Rows in memory stay under the texts of their keys. */
  ghost predicate KeysStay(st: Statement, wanted: set<Key>, s: Sim) {
    forall t :: t in s.rows ==>
      KeyText(KeyCells(s.rows[t], st.primaryKey)) == t && KeyCells(s.rows[t], st.primaryKey) in wanted
  }

  lemma {:induction false} KeysStayAll(st: Statement, wanted: set<Key>, s: Sim, rows: seq<Record>, n: nat)
    requires KeepsKey(st) && KeysStay(st, wanted, s) && n <= |rows| && SimAll(st, s, rows[..n]).Some?
    requires forall i :: 0 <= i < |rows| ==> KeyCells(rows[i], st.primaryKey) in wanted
    ensures KeysStay(st, wanted, SimAll(st, s, rows[..n]).value)
  {
    hide KeyCells, KeyText, KeepsKey, Noted, Changes, Assign;
    if n > 0 {
      SimNext(st, s, rows, n - 1);
      KeysStayAll(st, wanted, s, rows, n - 1);
      var front, t := SimAll(st, s, rows[..n - 1]).value, KeyText(KeyCells(rows[n - 1], st.primaryKey));
      if t in front.rows {
        var v := Evaluate(st.items, front.rows[t], rows[n - 1]).value;
        AssignKeepsKey(st, front.rows[t], v, |st.items|);
        assert st.items[..|st.items|] == st.items && v[..|st.items|] == v;
      }
    }
  }

  lemma KeysStayStart(st: Statement, stored: map<Key, Item>, wanted: set<Key>)
    requires StoredByKey(st, stored) && Injective(wanted * stored.Keys)
    ensures KeysStay(st, wanted, Start(stored, wanted))
  {
    hide KeyCells, KeyText, Cells, Injective;
    var s := Start(stored, wanted);
    forall t | t in s.rows
      ensures KeyText(KeyCells(s.rows[t], st.primaryKey)) == t && KeyCells(s.rows[t], st.primaryKey) in wanted
    {
      var k := StartOnly(stored, wanted, t);
      StartAt(stored, wanted, k);
    }
  }

  /** No update of a row with the key of the inserted one is judged the wrong way. */
  ghost predicate AlwaysJudges(st: Statement) {
    forall was: Record, row: Record {:trigger Evaluate(st.items, was, row)} ::
      KeyCells(was, st.primaryKey) == KeyCells(row, st.primaryKey) && Evaluate(st.items, was, row).Some? ==>
        !Misjudged(was, st.items, Evaluate(st.items, was, row).value)
  }

  lemma FineThroughout(st: Statement, exact: bool, stored: map<Key, Item>, rows: seq<Record>)
    requires KeepsKey(st) && Admissible(st, stored, rows) && AlwaysJudges(st)
    requires exact ==> AlwaysKeeps(st)
    ensures ListFine(st, exact, stored, Start(stored, KeysOf(st, rows)), rows)
  {
    hide KeyCells, KeyText, KeepsKey, Misjudged, Injective, StoredByKey, KeptAll;
    var wanted := KeysOf(st, rows);
    var s := Start(stored, wanted);
    KeysStayStart(st, stored, wanted);
    forall i | 0 <= i < |rows| && SimAll(st, s, rows[..i]).Some?
      ensures RowFine(st, exact, stored, SimAll(st, s, rows[..i]).value, rows[i])
    {
      KeysStayAll(st, wanted, s, rows, i);
      var now, k := SimAll(st, s, rows[..i]).value, KeyCells(rows[i], st.primaryKey);
      if KeyText(k) in now.rows {
        SameText(wanted, KeyCells(now.rows[KeyText(k)], st.primaryKey), k);
      }
    }
  }

  lemma SameText(keys: set<Key>, a: Key, b: Key)
    requires Injective(keys) && a in keys && b in keys && KeyText(a) == KeyText(b)
    ensures a == b
  {
  }

  ghost predicate AlwaysKeeps(st: Statement) {
    forall was: Record, row: Record {:trigger Evaluate(st.items, was, row)} ::
      KeyCells(was, st.primaryKey) == KeyCells(row, st.primaryKey) && Evaluate(st.items, was, row).Some? ==>
        KeptAll(was, st.items, Evaluate(st.items, was, row).value)
  }

  /** A new row and one update of it: the counts tell how the update was judged. */
  lemma InsertThenUpdate(st: Statement, was: Record, row: Record)
    requires KeepsKey(st) && TypeBlind(st.items)
    requires KeyCells(was, st.primaryKey) == KeyCells(row, st.primaryKey) && Evaluate(st.items, was, row).Some?
    ensures Admissible(st, map[], [was, row])
    ensures
      var values := Evaluate(st.items, was, row).value;
      CountsAgree(Batch(st, map[], [was, row]), RowByRow(st, map[], [was, row])) <==>
      !Misjudged(was, st.items, values)
  {
    hide KeyCells, KeyText, KeepsKey, Changes, ValueChanges, Misjudged, Noted, Assign, StoreAssign, TypeBlind,
         Evaluate, Written;
    var rows, k, stored: map<Key, Item> := [was, row], KeyCells(was, st.primaryKey), map[];
    assert forall q :: q in KeysOf(st, rows) ==> q == k;
    assert KeysOf(st, rows) * stored.Keys == {};
    var s := Start(stored, KeysOf(st, rows));
    StartNotes(stored, KeysOf(st, rows));
    assert s.rows == map[];
    assert rows[..1] == [was] && [was][..0] == [];
    assert SimAll(st, s, []) == Some(s) && UpsertAll(st, Outcome(stored, 0, 0), []) == Some(Outcome(stored, 0, 0));
    assert SimAll(st, s, [was]) == SimRow(st, s, was);
    var s1 := SimAll(st, s, [was]).value;
    assert s1.rows == map[KeyText(k) := was] && s1.affected == 1;
    assert SimAll(st, s, rows) == SimRow(st, s1, row);
    var o := Outcome(stored, 0, 0);
    var o1 := UpsertAll(st, o, [was]).value;
    assert o1.table == map[k := Attrs(was)] && o1.affected == 1;
    assert UpsertAll(st, o, rows) == UpsertRow(st, o1, row);
    MirrorWritten(was);
    EvaluateBlind(st.items, was, Cells(Attrs(was)), row);
    var v, w := Evaluate(st.items, was, row).value, Evaluate(st.items, Cells(Attrs(was)), row).value;
    ValueChangesMirror(was, Attrs(was), st.items, v, w);
    MisjudgedIff(was, st.items, v);
  }

  /** The counts are right for every table and every list iff no numeric NULL can meet 0 with nothing else
      changed, or meet another NULL with no value changed, on any row with the key of the inserted one. */
  lemma CountsRightIff(st: Statement)
    requires KeepsKey(st) && TypeBlind(st.items)
    ensures
      AlwaysJudges(st) <==>
      forall stored, rows | Admissible(st, stored, rows) ::
        CountsAgree(Batch(st, stored, rows), RowByRow(st, stored, rows))
  {
    hide KeyCells, KeyText, KeepsKey, Misjudged, TypeBlind, Injective, StoredByKey, CountsAgree, Batch, RowByRow;
    if AlwaysJudges(st) {
      forall stored, rows | Admissible(st, stored, rows)
        ensures CountsAgree(Batch(st, stored, rows), RowByRow(st, stored, rows))
      {
        FineThroughout(st, false, stored, rows);
        BatchCounts(st, false, stored, rows);
      }
    }
    if forall stored, rows | Admissible(st, stored, rows) ::
         CountsAgree(Batch(st, stored, rows), RowByRow(st, stored, rows)) {
      forall was: Record, row: Record |
        KeyCells(was, st.primaryKey) == KeyCells(row, st.primaryKey) && Evaluate(st.items, was, row).Some?
        ensures !Misjudged(was, st.items, Evaluate(st.items, was, row).value)
      {
        InsertThenUpdate(st, was, row);
        assert Admissible(st, map[], [was, row]);
      }
    }
  }

  /** A numeric NULL never meets 0 or another NULL. */
  ghost predicate NeverMeets(st: Statement) {
    forall was: Record, row: Record {:trigger Evaluate(st.items, was, row)} ::
      KeyCells(was, st.primaryKey) == KeyCells(row, st.primaryKey) && Evaluate(st.items, was, row).Some? ==>
        forall i :: 0 <= i < |st.items| ==>
          var cell, value := CellFor(was, st.items, i), Evaluate(st.items, was, row).value[i];
          !NullMeetsZero(cell, value) && !NullMeetsNull(cell, value)
  }

  lemma OneAssignment(was: Record, items: seq<SetItem>, v: seq<Cell>)
    requires |items| == |v| == 1
    ensures Changes(was, items, v) <==> !Same(CellFor(was, items, 0), v[0])
    ensures ValueChanges(was, items, v) <==> CellValue(CellFor(was, items, 0)) != CellValue(v[0])
    ensures
      var cell := CellFor(was, items, 0);
      && (Misjudged(was, items, v) <==> NullMeetsZero(cell, v[0]) || NullMeetsNull(cell, v[0]))
      && (KeptAll(was, items, v) <==> !NullMeetsZero(cell, v[0]))
  {
    hide Lower, Same, CellValue, NullMeetsZero, NullMeetsNull;
    assert items[..0] == [] && v[..0] == [];
    assert Assign(was, items[..0], v[..0]) == was;
    MisjudgedIff(was, items, v);
    ClearIff(CellFor(was, items, 0), v[0]);
  }

  /** With one assignment, everything is right for every table and every list iff that never happens. */
  lemma SingleRightIff(st: Statement)
    requires KeepsKey(st) && TypeBlind(st.items) && |st.items| == 1
    ensures
      NeverMeets(st) <==>
      forall stored, rows | Admissible(st, stored, rows) ::
        Agree(Batch(st, stored, rows), RowByRow(st, stored, rows))
  {
    hide KeyCells, KeyText, KeepsKey, Misjudged, TypeBlind, Injective, StoredByKey, SameTable, CellFor, KeptAll,
         NullMeetsZero, NullMeetsNull, Batch, RowByRow;
    forall was: Record, row: Record | Evaluate(st.items, was, row).Some?
      ensures
        var cell, v := CellFor(was, st.items, 0), Evaluate(st.items, was, row).value;
        && (!NullMeetsZero(cell, v[0]) && !NullMeetsNull(cell, v[0]) <==> !Misjudged(was, st.items, v))
        && (!NullMeetsZero(cell, v[0]) ==> KeptAll(was, st.items, v))
    {
      OneAssignment(was, st.items, Evaluate(st.items, was, row).value);
    }
    assert NeverMeets(st) <==> AlwaysJudges(st);
    CountsRightIff(st);
    if NeverMeets(st) {
      assert AlwaysKeeps(st);
      forall stored, rows | Admissible(st, stored, rows)
        ensures Agree(Batch(st, stored, rows), RowByRow(st, stored, rows))
      {
        FineThroughout(st, true, stored, rows);
        BatchIsRowByRow(st, stored, rows);
      }
    }
  }

  // ----- For one list -----

  /** The columns of a SET list are all different. */
  ghost predicate AssignsOnce(items: seq<SetItem>) {
    forall i, k :: 0 <= i < k < |items| ==> Lower(items[i].column) != Lower(items[k].column)
  }

  lemma AtPut(r: Record, c: string, v: Cell, k: string)
    ensures At(r[c := v], k) == if k == c then v else At(r, k)
  {
  }

  /** What becomes of a column that is assigned once, and of one that is not assigned. */
  lemma {:induction false} AssignedOnce(was: Record, noted: Record, items: seq<SetItem>, v: seq<Cell>, c: string)
    requires |v| == |items| && AssignsOnce(items)
    ensures
      var noted', now := Noted(was, noted, items, v), Assign(was, items, v);
      && (forall i :: 0 <= i < |items| && Lower(items[i].column) == c ==>
            && At(now, c) == v[i]
            && NotedAt(noted', c) == if Same(At(was, c), v[i]) then NotedAt(noted, c) else Some(v[i]))
      && ((forall i :: 0 <= i < |items| ==> Lower(items[i].column) != c) ==>
            At(now, c) == At(was, c) && NotedAt(noted', c) == NotedAt(noted, c))
  {
    hide Lower, Same, At;
    if items != [] {
      var n, column := |items| - 1, Lower(items[|items| - 1].column);
      assert forall i :: 0 <= i < n ==> items[..n][i] == items[i] && v[..n][i] == v[i];
      AssignedOnce(was, noted, items[..n], v[..n], c);
      AtPut(Assign(was, items[..n], v[..n]), column, v[n], c);
      if column == c {
        assert forall i :: 0 <= i < n ==> Lower(items[..n][i].column) != c;
      }
    }
  }

  function NotedAt(noted: Record, c: string): Option<Cell> {
    if c in noted then Some(noted[c]) else None
  }

  /** Writing the noted cells still gives the row in memory iff no assignment is lost. */
  lemma KeptIff(stored: Item, noted: Record, was: Record, items: seq<SetItem>, v: seq<Cell>)
    requires |v| == |items| && AssignsOnce(items) && Tracks(stored, noted, was)
    ensures KeptAll(was, items, v) <==> Tracks(stored, Noted(was, noted, items, v), Assign(was, items, v))
  {
    hide KeptAll, Lower, NullMeetsZero, Noted, Assign, Cells, Attrs;
    if KeptAll(was, items, v) {
      KeptTracks(stored, noted, was, items, v);
    } else {
      var i := LostOne(was, items, v);
      var c, noted' := Lower(items[i].column), Noted(was, noted, items, v);
      AssignedOnce(was, noted, items, v, c);
      ClearIff(At(was, c), v[i]);
      WrittenValue(stored, noted, c);
      WrittenValue(stored, noted', c);
      assert ValueAt(Cells(stored + Attrs(noted)), c) == ValueAt(was, c);
      assert ValueAt(Cells(stored + Attrs(noted')), c) != ValueAt(Assign(was, items, v), c);
    }
  }

  /** An assignment that is lost meets the cell as the row was. */
  lemma LostOne(was: Record, items: seq<SetItem>, v: seq<Cell>) returns (i: nat)
    requires |v| == |items| && AssignsOnce(items) && !KeptAll(was, items, v)
    ensures i < |items| && NullMeetsZero(CellFor(was, items, i), v[i])
  {
    hide Lower, NullMeetsZero, Assign, At;
    i :| 0 <= i < |items| && NullMeetsZero(At(Assign(was, items[..i], v[..i]), Lower(items[i].column)), v[i]);
    assert forall k :: 0 <= k < i ==> items[..i][k] == items[k];
    AssignedOnce(was, map[], items[..i], v[..i], Lower(items[i].column));
  }

  /** An assignment that is lost leaves the stored row wrong. */
  lemma UpdateLost(st: Statement, stored: map<Key, Item>, wanted: set<Key>, s: Sim, o: Outcome, row: Record)
    requires KeepsKey(st) && TypeBlind(st.items) && AssignsOnce(st.items) && Injective(wanted)
    requires Together(st, true, stored, wanted, s, o.table)
    requires KeyCells(row, st.primaryKey) in wanted && !RowKept(st, stored, s, row)
    ensures
      var k, s', o' := KeyCells(row, st.primaryKey), SimRow(st, s, row), UpsertRow(st, o, row);
      && s'.Some? && o'.Some? && k in stored && k in o'.value.table
      && !SameItem(stored[k] + Attrs(NotedFor(s'.value, KeyText(k))), o'.value.table[k])
  {
    hide KeyText, Mirror, Tracks, TypeBlind, KeyCells, Assign, Noted, StoreAssign, Changes, ValueChanges, KeptAll,
         AssignsOnce, Evaluate, Together, KeepsKey, Cells, Attrs, SameItem;
    var k := KeyCells(row, st.primaryKey);
    var t := KeyText(k);
    FoundIs(st, true, stored, wanted, s, o.table, k);
    var was, item := s.rows[t], o.table[k];
    UpdateMirrors(st, was, item, row);
    var v, w := Evaluate(st.items, was, row).value, Evaluate(st.items, Cells(item), row).value;
    KeptIff(stored[k], NotedFor(s, t), was, st.items, v);
    NotTracked(stored[k], Noted(was, NotedFor(s, t), st.items, v), Assign(was, st.items, v),
               StoreAssign(item, st.items, w));
  }

  lemma NotTracked(stored: Item, noted: Record, r: Record, item: Item)
    requires !Tracks(stored, noted, r) && Mirror(r, item)
    ensures !SameItem(stored + Attrs(noted), item)
  {
    hide Mirror, Attrs, Cells;
    var c :| ValueAt(Cells(stored + Attrs(noted)), c) != ValueAt(r, c);
    MirrorAt(r, item, c);
  }

  /** After rows that went right, one row more fails in both or in neither; the counts are right iff it is
      judged the right way, and the table iff no assignment to a stored row is lost. */
  lemma LastRowRightIff(st: Statement, stored: map<Key, Item>, rows: seq<Record>)
    requires KeepsKey(st) && TypeBlind(st.items) && AssignsOnce(st.items) && Admissible(st, stored, rows) && rows != []
    requires ListFine(st, true, stored, Start(stored, KeysOf(st, rows)), rows[..|rows| - 1])
    ensures
      var n := |rows| - 1;
      var front := SimAll(st, Start(stored, KeysOf(st, rows)), rows[..n]);
      var batch, reference := Batch(st, stored, rows), RowByRow(st, stored, rows);
      && batch.None? == reference.None?
      && (batch.Some? && reference.Some? ==>
            && front.Some?
            && (batch.value.counts == reference.value.counts <==> RowJudged(st, front.value, rows[n]))
            && (SameTable(batch.value.table, reference.value.table) <==> RowKept(st, stored, front.value, rows[n])))
  {
    hide KeyCells, KeyText, TypeBlind, KeepsKey, AssignsOnce, Injective, StoredByKey, ListFine, RowJudged, RowKept,
         Together, SimRow, UpsertRow, Written, SameItem, SameTable;
    var wanted, n := KeysOf(st, rows), |rows| - 1;
    TogetherStart(st, true, stored, wanted);
    StartNotes(stored, wanted);
    var s, o := Start(stored, wanted), Outcome(stored, 0, 0);
    ListTogether(st, true, stored, wanted, s, o, rows[..n]);
    if SimAll(st, s, rows[..n]).Some? {
      var front, back := SimAll(st, s, rows[..n]).value, UpsertAll(st, o, rows[..n]).value;
      LeftOpen(st, stored, wanted, front, back.table);
      RowTogether(st, false, stored, wanted, front, back, rows[n]);
      if SimRow(st, front, rows[n]).Some? {
        LastTable(st, stored, wanted, front, back, rows[n]);
      }
    }
  }

  lemma LeftOpen(st: Statement, stored: map<Key, Item>, wanted: set<Key>, s: Sim, table: map<Key, Item>)
    requires Together(st, true, stored, wanted, s, table)
    ensures Together(st, false, stored, wanted, s, table)
  {
    hide KeyCells, KeyText, Tracks, RowMirrors;
    assert forall k :: k in stored ==> StoredTracks(st, true, stored, wanted, s, table, k);
  }

  lemma LastTable(st: Statement, stored: map<Key, Item>, wanted: set<Key>, s: Sim, o: Outcome, row: Record)
    requires KeepsKey(st) && TypeBlind(st.items) && AssignsOnce(st.items) && Injective(wanted)
    requires Together(st, true, stored, wanted, s, o.table) && s.affected == o.affected && s.duplicates == o.duplicates
    requires KeyCells(row, st.primaryKey) in wanted && SimRow(st, s, row).Some? && UpsertRow(st, o, row).Some?
    ensures SameTable(Written(st, stored, wanted, SimRow(st, s, row).value), UpsertRow(st, o, row).value.table) <==>
            RowKept(st, stored, s, row)
  {
    hide KeyCells, KeyText, TypeBlind, KeepsKey, AssignsOnce, Injective, RowJudged, RowKept, Together, SimRow,
         UpsertRow, Written, SameItem, SameTable;
    var s', o' := SimRow(st, s, row).value, UpsertRow(st, o, row).value;
    if RowKept(st, stored, s, row) {
      RowTogether(st, true, stored, wanted, s, o, row);
      WrittenSame(st, stored, wanted, s', o'.table);
    } else {
      UpdateLost(st, stored, wanted, s, o, row);
      TablesApart(st, stored, wanted, s', o'.table, KeyCells(row, st.primaryKey));
    }
  }

  lemma TablesApart(st: Statement, stored: map<Key, Item>, wanted: set<Key>, s: Sim, table: map<Key, Item>, k: Key)
    requires k in stored && k in wanted && k in table && !SameItem(stored[k] + Attrs(NotedFor(s, KeyText(k))), table[k])
    ensures !SameTable(Written(st, stored, wanted, s), table)
  {
    hide SameItem, KeyText, KeyCells, Attrs;
    assert Written(st, stored, wanted, s)[k] == stored[k] + Attrs(NotedFor(s, KeyText(k)));
  }

  // ----- A list and its front: more keys are read, but the rows concerned are the same in memory -----

  ghost predicate SameMemory(wanted: set<Key>, s: Sim, s': Sim) {
    forall k :: k in wanted ==>
      && (KeyText(k) in s.rows <==> KeyText(k) in s'.rows)
      && (KeyText(k) in s.rows ==> s.rows[KeyText(k)] == s'.rows[KeyText(k)])
  }

  lemma SameStart(stored: map<Key, Item>, part: set<Key>, whole: set<Key>)
    requires part <= whole && Injective(whole) && Injective(part * stored.Keys) && Injective(whole * stored.Keys)
    ensures SameMemory(part, Start(stored, part), Start(stored, whole))
  {
    hide KeyText, Cells, Start;
    forall k | k in part
      ensures
        var s, s', t := Start(stored, part), Start(stored, whole), KeyText(k);
        (t in s.rows <==> t in s'.rows) && (t in s.rows ==> s.rows[t] == s'.rows[t])
    {
      if k in stored {
        StartAt(stored, part, k);
        StartAt(stored, whole, k);
      } else {
        if KeyText(k) in Start(stored, part).rows {
          var q := StartOnly(stored, part, KeyText(k));
          assert false;
        }
        if KeyText(k) in Start(stored, whole).rows {
          var q := StartOnly(stored, whole, KeyText(k));
          assert false;
        }
      }
    }
  }

  lemma SameMemoryRow(st: Statement, wanted: set<Key>, s: Sim, s': Sim, row: Record)
    requires SameMemory(wanted, s, s') && KeyCells(row, st.primaryKey) in wanted
    ensures SimRow(st, s, row).None? == SimRow(st, s', row).None?
    ensures SimRow(st, s, row).Some? ==> SameMemory(wanted, SimRow(st, s, row).value, SimRow(st, s', row).value)
  {
    hide KeyText, KeyCells, Evaluate, Assign, Noted, Changes;
    assert KeyText(KeyCells(row, st.primaryKey)) in s.rows <==> KeyText(KeyCells(row, st.primaryKey)) in s'.rows;
  }

  lemma {:induction false} SameMemoryAll(st: Statement, wanted: set<Key>, s: Sim, s': Sim, rows: seq<Record>)
    requires SameMemory(wanted, s, s') && forall i :: 0 <= i < |rows| ==> KeyCells(rows[i], st.primaryKey) in wanted
    ensures SimAll(st, s, rows).None? == SimAll(st, s', rows).None?
    ensures SimAll(st, s, rows).Some? ==> SameMemory(wanted, SimAll(st, s, rows).value, SimAll(st, s', rows).value)
  {
    hide KeyCells, SimRow, SameMemory;
    if rows != [] {
      var n := |rows| - 1;
      SameMemoryAll(st, wanted, s, s', rows[..n]);
      if SimAll(st, s, rows[..n]).Some? {
        SameMemoryRow(st, wanted, SimAll(st, s, rows[..n]).value, SimAll(st, s', rows[..n]).value, rows[n]);
      }
    }
  }

  lemma SameFine(st: Statement, stored: map<Key, Item>, wanted: set<Key>, s: Sim, s': Sim, rows: seq<Record>)
    requires SameMemory(wanted, s, s') && forall i :: 0 <= i < |rows| ==> KeyCells(rows[i], st.primaryKey) in wanted
    ensures ListFine(st, true, stored, s, rows) <==> ListFine(st, true, stored, s', rows)
  {
    hide KeyText, KeyCells, Misjudged, KeptAll, SimAll, SameMemory, RowFine;
    forall i | 0 <= i < |rows|
      ensures SimAll(st, s, rows[..i]).None? == SimAll(st, s', rows[..i]).None?
      ensures SimAll(st, s, rows[..i]).Some? ==>
                (RowFine(st, true, stored, SimAll(st, s, rows[..i]).value, rows[i]) <==>
                 RowFine(st, true, stored, SimAll(st, s', rows[..i]).value, rows[i]))
    {
      SameMemoryAll(st, wanted, s, s', rows[..i]);
      if SimAll(st, s, rows[..i]).Some? {
        SameRowFine(st, stored, wanted, SimAll(st, s, rows[..i]).value, SimAll(st, s', rows[..i]).value, rows[i]);
      }
    }
  }

  lemma SameRowFine(st: Statement, stored: map<Key, Item>, wanted: set<Key>, s: Sim, s': Sim, row: Record)
    requires SameMemory(wanted, s, s') && KeyCells(row, st.primaryKey) in wanted
    ensures RowFine(st, true, stored, s, row) <==> RowFine(st, true, stored, s', row)
  {
    hide KeyText, KeyCells, Misjudged, KeptAll;
  }

  lemma FrontAdmissible(st: Statement, stored: map<Key, Item>, rows: seq<Record>, n: nat)
    requires Admissible(st, stored, rows) && n <= |rows|
    ensures KeysOf(st, rows[..n]) <= KeysOf(st, rows) && Admissible(st, stored, rows[..n])
  {
    hide KeyCells, KeyText, StoredByKey;
    forall k | k in KeysOf(st, rows[..n])
      ensures k in KeysOf(st, rows)
    {
      var i :| 0 <= i < n && KeyCells(rows[..n][i], st.primaryKey) == k;
      assert rows[..n][i] == rows[i];
    }
  }

  /** The batch is the same as row by row for the list and each of its fronts iff, row by row, no update is
      misjudged and no assignment to a stored row is lost. */
  lemma {:induction false} EveryStepRightIff(st: Statement, stored: map<Key, Item>, rows: seq<Record>)
    requires KeepsKey(st) && TypeBlind(st.items) && AssignsOnce(st.items) && Admissible(st, stored, rows)
    ensures forall n :: 0 <= n <= |rows| ==> Admissible(st, stored, rows[..n])
    ensures
      ListFine(st, true, stored, Start(stored, KeysOf(st, rows)), rows) <==>
      forall n :: 0 <= n <= |rows| ==> Agree(Batch(st, stored, rows[..n]), RowByRow(st, stored, rows[..n]))
  {
    hide KeyCells, TypeBlind, KeepsKey, AssignsOnce, Injective, StoredByKey, ListFine, Agree, Batch, RowByRow,
         Start, SameMemory;
    forall n | 0 <= n <= |rows|
      ensures Admissible(st, stored, rows[..n])
    {
      FrontAdmissible(st, stored, rows, n);
    }
    var m := |rows| - 1;
    assert rows[..|rows|] == rows;
    if rows == [] {
      NothingFails(st, stored, Start(stored, KeysOf(st, rows)));
      BatchIsRowByRow(st, stored, rows);
    } else {
      var front := rows[..m];
      FrontAdmissible(st, stored, rows, m);
      EveryStepRightIff(st, stored, front);
      FrontFine(st, stored, rows);
      assert forall n :: 0 <= n <= m ==> front[..n] == rows[..n];
      if ListFine(st, true, stored, Start(stored, KeysOf(st, front)), front) {
        LastRowAgrees(st, stored, rows);
      }
    }
  }

  /** A list goes right iff its front and its last row do. */
  lemma LastRowFine(st: Statement, stored: map<Key, Item>, s: Sim, rows: seq<Record>)
    requires rows != []
    ensures
      var n := |rows| - 1;
      ListFine(st, true, stored, s, rows) <==>
      && ListFine(st, true, stored, s, rows[..n])
      && (SimAll(st, s, rows[..n]).Some? ==> RowFine(st, true, stored, SimAll(st, s, rows[..n]).value, rows[n]))
  {
    hide RowFine, SimAll;
    var n := |rows| - 1;
    assert forall i :: 0 <= i < n ==> rows[..n][..i] == rows[..i] && rows[..n][i] == rows[i];
  }

  lemma LastRowAgrees(st: Statement, stored: map<Key, Item>, rows: seq<Record>)
    requires KeepsKey(st) && TypeBlind(st.items) && AssignsOnce(st.items) && Admissible(st, stored, rows) && rows != []
    requires ListFine(st, true, stored, Start(stored, KeysOf(st, rows)), rows[..|rows| - 1])
    ensures Agree(Batch(st, stored, rows), RowByRow(st, stored, rows)) <==>
            ListFine(st, true, stored, Start(stored, KeysOf(st, rows)), rows)
  {
    hide KeyCells, KeyText, TypeBlind, KeepsKey, AssignsOnce, Injective, StoredByKey, ListFine, RowJudged, RowKept,
         SimRow, RowByRow, Written, SameTable, Start;
    var n, s := |rows| - 1, Start(stored, KeysOf(st, rows));
    LastRowRightIff(st, stored, rows);
    LastRowFine(st, stored, s, rows);
    if SimAll(st, s, rows[..n]).Some? && SimAll(st, s, rows).None? {
      FailsFine(st, stored, SimAll(st, s, rows[..n]).value, rows[n]);
    }
  }

  /** A row that fails is not wrong. */
  lemma FailsFine(st: Statement, stored: map<Key, Item>, s: Sim, row: Record)
    requires SimRow(st, s, row).None?
    ensures RowJudged(st, s, row) && RowKept(st, stored, s, row)
  {
  }

  lemma NothingFails(st: Statement, stored: map<Key, Item>, s: Sim)
    ensures ListFine(st, true, stored, s, [])
  {
  }

  lemma FrontFine(st: Statement, stored: map<Key, Item>, rows: seq<Record>)
    requires Admissible(st, stored, rows) && rows != []
    ensures Admissible(st, stored, rows[..|rows| - 1])
    ensures
      var front, whole := rows[..|rows| - 1], Start(stored, KeysOf(st, rows));
      && (ListFine(st, true, stored, whole, front) <==>
          ListFine(st, true, stored, Start(stored, KeysOf(st, front)), front))
      && (ListFine(st, true, stored, whole, rows) ==> ListFine(st, true, stored, whole, front))
  {
    hide KeyCells, RowFine, SimAll, Start, SameMemory, Injective, StoredByKey;
    var m := |rows| - 1;
    var front := rows[..m];
    FrontAdmissible(st, stored, rows, m);
    SameStart(stored, KeysOf(st, front), KeysOf(st, rows));
    SameFine(st, stored, KeysOf(st, front), Start(stored, KeysOf(st, front)), Start(stored, KeysOf(st, rows)), front);
    assert forall i :: 0 <= i < m ==> front[..i] == rows[..i] && front[i] == rows[i];
  }

  // ----- What counts as a change -----

  /** Rows with the same values, a missing one being NULL. */
  ghost predicate SameRow(a: Record, b: Record) {
    forall c :: ValueAt(a, c) == ValueAt(b, c)
  }

  lemma {:induction false} ChangedIfDifferent(was: Record, items: seq<SetItem>, v: seq<Cell>, c: string)
    requires |v| == |items| && AssignsOnce(items)
    ensures ValueAt(was, c) != ValueAt(Assign(was, items, v), c) <==>
            exists i :: 0 <= i < |items| && Lower(items[i].column) == c && ValueAt(was, c) != CellValue(v[i])
  {
    hide Lower, Assign, Noted;
    AssignedOnce(was, map[], items, v, c);
    if i :| 0 <= i < |items| && Lower(items[i].column) == c {
      assert forall k :: 0 <= k < |items| && Lower(items[k].column) == c ==> k == i;
    }
  }

  ghost function Zeros(items: seq<SetItem>): Record {
    map i: nat | i < |items| :: Lower(items[i].column) := NumberCell(Some(0))
  }

  ghost function OneAt(n: nat, i: nat): (v: seq<Cell>)
    ensures |v| == n
  {
    seq(n, k => NumberCell(Some(if k == i then 1 else 0)))
  }

  /** One assignment of these values: all but one leave 0 in their column. */
  lemma ZeroStep(items: seq<SetItem>, i: nat, n: nat, c: string)
    requires i < |items| && n < |items|
    ensures
      var v, column := OneAt(|items|, i), Lower(items[n].column);
      var was, now := Assign(Zeros(items), items[..n], v[..n]), Assign(Zeros(items), items[..n + 1], v[..n + 1]);
      && (c != column ==> ValueAt(now, c) == ValueAt(was, c))
      && (n != i && c == column ==> ValueAt(now, c) == ValueAt(Zeros(items), c))
  {
    hide Lower, Assign;
    AssignNext(Zeros(items), items, OneAt(|items|, i), n);
  }

  lemma {:induction false} ZeroElsewhere(items: seq<SetItem>, i: nat, n: nat, c: string)
    requires i < |items| && n <= |items|
    requires c == Lower(items[i].column) ==> exists k :: i < k < n && Lower(items[k].column) == c
    ensures ValueAt(Assign(Zeros(items), items[..n], OneAt(|items|, i)[..n]), c) == ValueAt(Zeros(items), c)
    decreases n
  {
    hide Lower, Assign, Zeros, OneAt, ValueAt;
    if n == 0 {
      NothingAssigned(Zeros(items), map[], items, OneAt(|items|, i));
    } else {
      ZeroStep(items, i, n - 1, c);
      if c != Lower(items[n - 1].column) {
        ZeroElsewhere(items, i, n - 1, c);
      }
    }
  }

  /** That a row counts as changed exactly when it comes out different is true of a SET list, for all rows
      and values, iff the list assigns no column twice. */
  lemma ChangedIffDifferent(items: seq<SetItem>)
    ensures
      AssignsOnce(items) <==>
      forall was: Record, v: seq<Cell> | |v| == |items| ::
        ValueChanges(was, items, v) <==> !SameRow(was, Assign(was, items, v))
  {
    hide Lower, Assign;
    if AssignsOnce(items) {
      forall was: Record, v: seq<Cell> | |v| == |items|
        ensures ValueChanges(was, items, v) <==> !SameRow(was, Assign(was, items, v))
      {
        forall c
          ensures ValueAt(was, c) != ValueAt(Assign(was, items, v), c) <==>
                  exists i :: 0 <= i < |items| && Lower(items[i].column) == c && ValueAt(was, c) != CellValue(v[i])
        {
          ChangedIfDifferent(was, items, v, c);
        }
      }
    } else {
      var i, k :| 0 <= i < k < |items| && Lower(items[i].column) == Lower(items[k].column);
      var was, v := Zeros(items), OneAt(|items|, i);
      forall c
        ensures ValueAt(was, c) == ValueAt(Assign(was, items, v), c)
      {
        ZeroElsewhere(items, i, |items|, c);
        assert items[..|items|] == items && v[..|v|] == v;
      }
      assert ValueAt(was, Lower(items[i].column)) == Num(0) && CellValue(v[i]) == Num(1);
      assert ValueChanges(was, items, v);
      assert |v| == |items| && SameRow(was, Assign(was, items, v));
    }
  }
}
