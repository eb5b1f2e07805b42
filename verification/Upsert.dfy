/** INSERT ... ON DUPLICATE KEY UPDATE: one read, a simulation in memory, one bulk update and one bulk
    insert. `Run` is proved against `Batch`, and `UpsertLaws` compares `Batch` with upserting row by row. */
module Upsert {
  import opened Common
  import opened Decimal

  datatype Value = Missing | Nothing | Num(n: int) | Str(s: string)

  /** A cell with its type: 'number', a type for text, or any other type; all but the first hold a NULL
      that is no different from a plain one. */
  datatype Cell =
    | NullCell
    | NumberCell(n: Option<int>)
    | OtherCell(other: Option<int>)
    | TextCell(text: Option<string>)

  /** What the table holds in a column. */
  datatype Attr = NullAttr | NumberAttr(n: int) | BoolAttr(b: bool) | TextAttr(s: string)

  /** A row in memory, and a row of the table. */
  type Record = map<string, Cell>

  type Item = map<string, Attr>

  type Key = seq<Value>

  function CellValue(cell: Cell): Value {
    match cell
    case NullCell => Nothing
    case NumberCell(n) => if n.Some? then Num(n.value) else Nothing
    case OtherCell(n) => if n.Some? then Num(n.value) else Nothing
    case TextCell(s) => if s.Some? then Str(s.value) else Nothing
  }

  /** `toCell`: how a row of the table is read. */
  function ToCell(attr: Attr): Cell {
    match attr
    case NullAttr => NullCell
    case NumberAttr(n) => NumberCell(Some(n))
    case BoolAttr(b) => OtherCell(Some(if b then 1 else 0))
    case TextAttr(s) => TextCell(Some(s))
  }

  /** How a cell is written: its value alone, without its type. */
  function ToAttr(cell: Cell): (attr: Attr)
    ensures CellValue(ToCell(attr)) == CellValue(cell)
  {
    match CellValue(cell)
    case Num(n) => NumberAttr(n)
    case Str(s) => TextAttr(s)
    case _ => NullAttr
  }

  function Cells(item: Item): Record {
    map c | c in item :: ToCell(item[c])
  }

  function Attrs(r: Record): Item {
    map c | c in r :: ToAttr(r[c])
  }

  /** `normalizeCell`: a cell of type 'number' goes through `Number`, which turns null into 0. */
  function Normal(cell: Cell): Value {
    if cell == NumberCell(None) then Num(0) else CellValue(cell)
  }

  /** `isSameCell`. */
  predicate Same(a: Cell, b: Cell) {
    Normal(a) == Normal(b)
  }

  function Lower(s: string): string {
    seq(|s|, i requires 0 <= i < |s| => if 'A' <= s[i] <= 'Z' then s[i] + 32 as char else s[i])
  }

  /** No two columns of a row are spelled alike but for their case. */
  ghost predicate CaseDistinct<T>(r: map<string, T>) {
    forall a, b :: a in r && b in r && Lower(a) == Lower(b) ==> a == b
  }

  /** The spelling under which a row holds the column `name`, or `name` itself. */
  function FindKey<T>(r: map<string, T>, name: string): (key: string)
    requires CaseDistinct(r)
    ensures Lower(key) == Lower(name)
    ensures key in r <==> exists k :: k in r && Lower(k) == Lower(name)
  {
    if exists k :: k in r && Lower(k) == Lower(name) then
      var k :| k in r && Lower(k) == Lower(name);
      k
    else name
  }

  /** `lowerKeys`. */
  function Fold<T>(r: map<string, T>): map<string, T>
    requires CaseDistinct(r)
  {
    map k | k in r :: Lower(k) := r[k]
  }

  /** A missing column reads as NULL. */
  function At(r: Record, column: string): Cell {
    if column in r then r[column] else NullCell
  }

  /** The key of a row with lower-case columns. */
  function KeyCells(r: Record, primaryKey: seq<string>): Key {
    seq(|primaryKey|, i requires 0 <= i < |primaryKey| =>
      if Lower(primaryKey[i]) in r then CellValue(r[Lower(primaryKey[i])]) else Missing)
  }

  // ----- The SET list -----

  /** One assignment of the SET list; its expression sees the stored row and the inserted one. */
  datatype SetItem = SetItem(column: string, expr: (Record, Record) -> Option<Cell>)

  /** The statement: the key columns of the table and the SET list. */
  datatype Statement = Statement(primaryKey: seq<string>, items: seq<SetItem>)

  /** The values of a SET list, all taken from the row as it was; `None` when one of them fails. */
  function Evaluate(items: seq<SetItem>, existing: Record, inserted: Record): (values: Option<seq<Cell>>)
    ensures values.Some? ==> |values.value| == |items|
  {
    if items == [] then Some([]) else
      var n := |items| - 1;
      match Evaluate(items[..n], existing, inserted)
      case None => None
      case Some(front) =>
        match items[n].expr(existing, inserted)
        case None => None
        case Some(cell) => Some(front + [cell])
  }

  function Assign(was: Record, items: seq<SetItem>, values: seq<Cell>): Record
    requires |values| == |items|
  {
    if items == [] then was else
      var n := |items| - 1;
      Assign(was, items[..n], values[..n])[Lower(items[n].column) := values[n]]
  }

  /** Some value differs from the cell the row held before, as `isSameCell` has it. */
  predicate Changes(was: Record, items: seq<SetItem>, values: seq<Cell>)
    requires |values| == |items|
  {
    exists i :: 0 <= i < |items| && !Same(At(was, Lower(items[i].column)), values[i])
  }

  /** The cells noted for writing: an assignment adds its own unless the row holds the same by then. */
  function Noted(was: Record, noted: Record, items: seq<SetItem>, values: seq<Cell>): Record
    requires |values| == |items|
  {
    if items == [] then noted else
      var n := |items| - 1;
      var front, column := Noted(was, noted, items[..n], values[..n]), Lower(items[n].column);
      if Same(At(Assign(was, items[..n], values[..n]), column), values[n]) then front else front[column := values[n]]
  }

  // ----- Text keys -----

  function Numeral(n: nat): string {
    seq(|Digits(n)|, i requires 0 <= i < |Digits(n)| => '0' + Digits(n)[i] as char)
  }

  /** `String(value)`. */
  function Text(v: Value): string {
    match v
    case Missing => "undefined"
    case Nothing => "null"
    case Num(n) => if n < 0 then "-" + Numeral(-n) else Numeral(n)
    case Str(s) => s
  }

  /** `_keyOf`. */
  function KeyText(key: Key): string {
    if key == [] then "" else if |key| == 1 then Text(key[0]) else Text(key[0]) + "|" + KeyText(key[1..])
  }

  ghost predicate Injective(keys: set<Key>) {
    forall a, b :: a in keys && b in keys && KeyText(a) == KeyText(b) ==> a == b
  }

  // ----- What the batch computes -----

  /** The rows in memory by key text, the cells noted for each, and the counts so far. */
  datatype Sim = Sim(rows: map<string, Record>, noted: map<string, Record>, affected: nat, duplicates: nat)

  function NotedFor(s: Sim, text: string): Record {
    if text in s.noted then s.noted[text] else map[]
  }

  /** One listed row: the first of its key text is taken as it is, any other updates what is there. */
  function SimRow(st: Statement, s: Sim, row: Record): Option<Sim> {
    var t := KeyText(KeyCells(row, st.primaryKey));
    if t !in s.rows then Some(s.(rows := s.rows[t := row], affected := s.affected + 1)) else
      var was := s.rows[t];
      match Evaluate(st.items, was, row)
      case None => None
      case Some(values) =>
        Some(Sim(s.rows[t := Assign(was, st.items, values)],
                 s.noted[t := Noted(was, NotedFor(s, t), st.items, values)],
                 s.affected + (if Changes(was, st.items, values) then 2 else 1),
                 s.duplicates + 1))
  }

  function SimAll(st: Statement, s: Sim, rows: seq<Record>): Option<Sim> {
    if rows == [] then Some(s) else
      match SimAll(st, s, rows[..|rows| - 1])
      case None => None
      case Some(front) => SimRow(st, front, rows[|rows| - 1])
  }

  /** The rows read, as entries. */
  ghost function Start(stored: map<Key, Item>, wanted: set<Key>): Sim
    requires Injective(wanted * stored.Keys)
  {
    Sim(map k | k in stored && k in wanted :: KeyText(k) := Cells(stored[k]), map[], 0, 0)
  }

  /** The keys of the rows that were not read. */
  ghost function NewKeys(st: Statement, stored: map<Key, Item>, wanted: set<Key>, s: Sim): set<Key> {
    set t | t in s.rows && (forall k :: k in stored && k in wanted ==> KeyText(k) != t) ::
      KeyCells(s.rows[t], st.primaryKey)
  }

  /** The table after both bulk writes: noted cells in the rows read, and the new rows whole. */
  ghost function Written(st: Statement, stored: map<Key, Item>, wanted: set<Key>, s: Sim): map<Key, Item> {
    map k | k in stored.Keys + NewKeys(st, stored, wanted, s) ::
      if k !in stored then (if KeyText(k) in s.rows then Attrs(s.rows[KeyText(k)]) else map[])
      else if k in wanted then stored[k] + Attrs(NotedFor(s, KeyText(k)))
      else stored[k]
  }

  datatype Counts = Counts(affectedRows: nat, changedRows: nat)

  datatype Result = Result(table: map<Key, Item>, counts: Counts)

  ghost function KeysOf(st: Statement, rows: seq<Record>): set<Key> {
    set i | 0 <= i < |rows| :: KeyCells(rows[i], st.primaryKey)
  }

  /** What the statement does to a table, both with lower-case columns; `None` when it fails. */
  ghost function Batch(st: Statement, stored: map<Key, Item>, rows: seq<Record>): Option<Result>
    requires Injective(KeysOf(st, rows) * stored.Keys)
  {
    var wanted := KeysOf(st, rows);
    match SimAll(st, Start(stored, wanted), rows)
    case None => None
    case Some(s) => Some(Result(Written(st, stored, wanted, s), Counts(s.affected, s.duplicates)))
  }

  lemma {:induction false} SimFails(st: Statement, s: Sim, rows: seq<Record>, i: nat)
    requires i <= |rows| && SimAll(st, s, rows[..i]).None?
    ensures SimAll(st, s, rows).None?
  {
    if i < |rows| {
      assert rows[..|rows| - 1][..i] == rows[..i];
      SimFails(st, s, rows[..|rows| - 1], i);
    } else {
      assert rows[..i] == rows;
    }
  }

  lemma SimNext(st: Statement, s: Sim, rows: seq<Record>, i: nat)
    requires i < |rows|
    ensures
      SimAll(st, s, rows[..i + 1]) ==
      match SimAll(st, s, rows[..i])
      case None => None
      case Some(front) => SimRow(st, front, rows[i])
  {
    assert rows[..i + 1][..i] == rows[..i];
  }

  // ----- Rows as they are spelled -----

  lemma FoldAt<T>(r: map<string, T>, k: string)
    requires CaseDistinct(r) && k in r
    ensures Lower(k) in Fold(r) && Fold(r)[Lower(k)] == r[k]
  {
  }

  lemma FoldPut<T>(r: map<string, T>, attr: string, value: T)
    requires CaseDistinct(r[attr := value])
    ensures CaseDistinct(r) && Fold(r[attr := value]) == Fold(r)[Lower(attr) := value]
  {
    hide Lower;
    var r' := r[attr := value];
    forall a, b | a in r && b in r && Lower(a) == Lower(b)
      ensures a == b
    {
      assert a in r' && b in r';
    }
    assert Fold(r').Keys == Fold(r)[Lower(attr) := value].Keys;
  }

  /** Assigning under the spelling a row uses keeps its columns apart. */
  lemma FindKeyDistinct<T>(r: map<string, T>, name: string, value: T)
    requires CaseDistinct(r)
    ensures CaseDistinct(r[FindKey(r, name) := value])
  {
    hide Lower;
    var attr := FindKey(r, name);
    forall a, b | a in r[attr := value] && b in r[attr := value] && Lower(a) == Lower(b)
      ensures a == b
    {
      assert attr in r || forall k :: k in r ==> Lower(k) != Lower(name);
    }
  }

  lemma AtFold(r: Record, name: string)
    requires CaseDistinct(r)
    ensures At(r, FindKey(r, name)) == At(Fold(r), Lower(name))
  {
    hide Lower;
    var attr := FindKey(r, name);
    if attr in r {
      FoldAt(r, attr);
    }
  }

  lemma SubsetDistinct<T, U>(r: map<string, T>, part: map<string, U>)
    requires CaseDistinct(r) && part.Keys <= r.Keys
    ensures CaseDistinct(part)
  {
    hide Lower;
    forall a, b | a in part && b in part && Lower(a) == Lower(b)
      ensures a == b
    {
      assert a in r && b in r;
    }
  }

  lemma FoldCells(item: Item)
    requires CaseDistinct(item)
    ensures CaseDistinct(Cells(item)) && Fold(Cells(item)) == Cells(Fold(item))
  {
    hide Lower;
    SubsetDistinct(item, Cells(item));
    assert Fold(Cells(item)).Keys == Cells(Fold(item)).Keys;
  }

  lemma FoldAttrs(r: Record)
    requires CaseDistinct(r)
    ensures CaseDistinct(Attrs(r)) && Fold(Attrs(r)) == Attrs(Fold(r))
  {
    hide Lower;
    SubsetDistinct(r, Attrs(r));
    assert Fold(Attrs(r)).Keys == Attrs(Fold(r)).Keys;
  }

  lemma FoldPlus<T>(a: map<string, T>, b: map<string, T>)
    requires CaseDistinct(a) && CaseDistinct(b) && CaseDistinct(a + b)
    ensures Fold(a + b) == Fold(a) + Fold(b)
  {
    hide Lower;
    var more, sum := a + b, Fold(a) + Fold(b);
    forall c
      ensures c in Fold(more) <==> c in sum
      ensures c in Fold(more) ==> Fold(more)[c] == sum[c]
    {
      if c in Fold(more) {
        var k :| k in more && Lower(k) == c;
        FoldPlusAt(a, b, k);
      }
    }
  }

  lemma FoldPlusAt<T>(a: map<string, T>, b: map<string, T>, k: string)
    requires CaseDistinct(a) && CaseDistinct(b) && CaseDistinct(a + b) && k in a + b
    ensures
      var c := Lower(k);
      && c in Fold(a + b) && Fold(a + b)[c] == (a + b)[k]
      && c in Fold(a) + Fold(b) && (Fold(a) + Fold(b))[c] == (a + b)[k]
  {
    hide Lower, Fold, CaseDistinct;
    FoldAt(a + b, k);
    if k in b {
      FoldAt(b, k);
    } else {
      FoldAt(a, k);
      NotFolded(a + b, b, k);
    }
  }

  lemma NotFolded<T>(r: map<string, T>, part: map<string, T>, k: string)
    requires CaseDistinct(r) && CaseDistinct(part) && part.Keys <= r.Keys && k in r && k !in part
    ensures Lower(k) !in Fold(part)
  {
    hide Lower;
  }

  /** Writing cells under the spellings a row uses. */
  lemma FoldMerge(item: Item, cells: Record, r: Record)
    requires CaseDistinct(r) && item.Keys <= r.Keys && cells.Keys <= r.Keys
    ensures CaseDistinct(item) && CaseDistinct(cells) && CaseDistinct(item + Attrs(cells))
    ensures Fold(item + Attrs(cells)) == Fold(item) + Attrs(Fold(cells))
  {
    hide Lower, ToAttr, Fold, CaseDistinct;
    SubsetDistinct(r, item + Attrs(cells));
    SubsetDistinct(r, item);
    SubsetDistinct(r, cells);
    FoldAttrs(cells);
    FoldPlus(item, Attrs(cells));
  }

  /** The key of a row, each key column under whatever spelling the row uses. */
  function RecordKey(r: Record, primaryKey: seq<string>): Key
    requires CaseDistinct(r)
  {
    seq(|primaryKey|, i requires 0 <= i < |primaryKey| =>
      var attr := FindKey(r, primaryKey[i]);
      if attr in r then CellValue(r[attr]) else Missing)
  }

  lemma RecordKeyIsFolded(r: Record, primaryKey: seq<string>)
    requires CaseDistinct(r)
    ensures RecordKey(r, primaryKey) == KeyCells(Fold(r), primaryKey)
  {
    hide Lower;
    forall i | 0 <= i < |primaryKey|
      ensures RecordKey(r, primaryKey)[i] == KeyCells(Fold(r), primaryKey)[i]
    {
      var attr := FindKey(r, primaryKey[i]);
      if attr in r {
        FoldAt(r, attr);
      }
    }
  }

  // ----- One entry and the SET list -----

  /** `key` is set for a row the table already holds; `changed` are the cells to write to it. */
  datatype Entry = Entry(cur: Record, changed: Record, key: Option<Key>)

  /** The entry is that row, with those cells noted, each under a spelling the row uses. */
  ghost predicate Mirrors(e: Entry, row: Record, noted: Record) {
    && CaseDistinct(e.cur) && Fold(e.cur) == row
    && e.changed.Keys <= e.cur.Keys && CaseDistinct(e.changed) && Fold(e.changed) == noted
  }

  lemma AssignNext(was: Record, items: seq<SetItem>, values: seq<Cell>, i: nat)
    requires |values| == |items| && i < |items|
    ensures Assign(was, items[..i + 1], values[..i + 1]) ==
            Assign(was, items[..i], values[..i])[Lower(items[i].column) := values[i]]
  {
    assert items[..i + 1][..i] == items[..i] && values[..i + 1][..i] == values[..i];
  }

  lemma NotedNext(was: Record, noted: Record, items: seq<SetItem>, values: seq<Cell>, i: nat)
    requires |values| == |items| && i < |items|
    ensures
      var front, column := Noted(was, noted, items[..i], values[..i]), Lower(items[i].column);
      Noted(was, noted, items[..i + 1], values[..i + 1]) ==
      if Same(At(Assign(was, items[..i], values[..i]), column), values[i]) then front else front[column := values[i]]
  {
    assert items[..i + 1][..i] == items[..i] && values[..i + 1][..i] == values[..i];
  }

  lemma NothingAssigned(was: Record, noted: Record, items: seq<SetItem>, values: seq<Cell>)
    requires |values| == |items|
    ensures Assign(was, items[..0], values[..0]) == was && Noted(was, noted, items[..0], values[..0]) == noted
    ensures !Changes(was, items[..0], values[..0])
  {
  }

  lemma ChangesNext(was: Record, items: seq<SetItem>, values: seq<Cell>, i: nat)
    requires |values| == |items| && i < |items|
    ensures Changes(was, items[..i + 1], values[..i + 1]) <==>
            Changes(was, items[..i], values[..i]) || !Same(At(was, Lower(items[i].column)), values[i])
  {
    hide Lower, Same;
    var front, now := items[..i], items[..i + 1];
    forall k | 0 <= k < i
      ensures now[k] == front[k] && values[..i + 1][k] == values[..i][k]
    {
    }
    assert now[i] == items[i];
  }

  lemma AtUpdate(r: Record, column: string, value: Cell)
    ensures forall c :: At(r[column := value], c) == if c == column then value else At(r, c)
  {
    forall c
      ensures At(r[column := value], c) == if c == column then value else At(r, c)
    {
    }
  }

  /** One assignment, under the spelling the row uses; the cell is noted unless the row holds the same. */
  method ApplyOne(entry: Entry, name: string, value: Cell, ghost row: Record, ghost noted: Record)
    returns (next: Entry, changed: bool)
    requires Mirrors(entry, row, noted)
    ensures changed <==> !Same(At(row, Lower(name)), value)
    ensures Mirrors(next, row[Lower(name) := value], if changed then noted[Lower(name) := value] else noted)
    ensures next.key == entry.key && entry.cur.Keys <= next.cur.Keys
  {
    hide Lower, Normal, Fold;
    var attr := FindKey(entry.cur, name);
    AtFold(entry.cur, name);
    FindKeyDistinct(entry.cur, name, value);
    FoldPut(entry.cur, attr, value);
    changed := !Same(At(entry.cur, attr), value);
    next := entry.(cur := entry.cur[attr := value]);
    if changed {
      SubsetDistinct(next.cur, entry.changed[attr := value]);
      FoldPut(entry.changed, attr, value);
      next := next.(changed := entry.changed[attr := value]);
    }
  }

  /** The loop over the SET list: whether a cell changed is judged against the row as it is by then, and
      comes to the same as judging all of them against the row as it was. */
  method ApplyDuplicate(entry: Entry, items: seq<SetItem>, values: seq<Cell>, ghost was: Record, ghost noted: Record)
    returns (next: Entry, changed: bool)
    requires |values| == |items| && Mirrors(entry, was, noted)
    ensures Mirrors(next, Assign(was, items, values), Noted(was, noted, items, values))
    ensures changed <==> Changes(was, items, values)
    ensures next.key == entry.key && entry.cur.Keys <= next.cur.Keys
  {
    hide Lower, Assign, Noted, Changes, Mirrors, At;
    next, changed := entry, false;
    NothingAssigned(was, noted, items, values);
    for i := 0 to |items|
      invariant Mirrors(next, Assign(was, items[..i], values[..i]), Noted(was, noted, items[..i], values[..i]))
      invariant changed <==> Changes(was, items[..i], values[..i])
      invariant !changed ==> forall c :: Same(At(was, c), At(Assign(was, items[..i], values[..i]), c))
      invariant next.key == entry.key && entry.cur.Keys <= next.cur.Keys
    {
      var name, value := items[i].column, values[i];
      AssignNext(was, items, values, i);
      NotedNext(was, noted, items, values, i);
      ChangesNext(was, items, values, i);
      AtUpdate(Assign(was, items[..i], values[..i]), Lower(name), value);
      var one: bool;
      next, one := ApplyOne(next, name, value, Assign(was, items[..i], values[..i]),
                            Noted(was, noted, items[..i], values[..i]));
      changed := changed || one;
    }
    assert items[..|items|] == items && values[..|values|] == values;
  }

  // ----- The table -----

  datatype Update = Update(key: Key, cells: Record)

  /** Every row is stored under its own key. */
  ghost predicate Stored(rows: map<Key, Item>, primaryKey: seq<string>) {
    forall k :: k in rows ==> CaseDistinct(rows[k]) && StoredKey(rows[k], primaryKey) == k
  }

  function StoredKey(item: Item, primaryKey: seq<string>): Key
    requires CaseDistinct(item)
  {
    SubsetDistinct(item, Cells(item));
    RecordKey(Cells(item), primaryKey)
  }

  ghost function FoldTable(rows: map<Key, Item>): map<Key, Item>
    requires forall k :: k in rows ==> CaseDistinct(rows[k])
  {
    map k | k in rows :: Fold(rows[k])
  }

  ghost predicate DistinctKeys(updates: seq<Update>) {
    forall i, k :: 0 <= i < k < |updates| ==> updates[i].key != updates[k].key
  }

  function RowKeys(list: seq<Record>, primaryKey: seq<string>): seq<Key>
    requires forall r :: r in list ==> CaseDistinct(r)
  {
    seq(|list|, i requires 0 <= i < |list| => RecordKey(list[i], primaryKey))
  }

  /** The storage engine's table: rows by key, holding values without types. */
  class Table {
    var rows: map<Key, Item>

    /** The stored rows whose key is one of `keys`. */
    method GetRowList(keys: set<Key>) returns (items: seq<Item>)
      ensures forall k :: k in keys && k in rows ==> rows[k] in items
      ensures forall r :: r in items ==> exists k :: k in keys && k in rows && rows[k] == r
    {
      items := [];
      var todo := keys * rows.Keys;
      while todo != {}
        invariant todo <= keys * rows.Keys
        invariant forall k :: k in keys && k in rows && k !in todo ==> rows[k] in items
        invariant forall r :: r in items ==> exists k :: k in keys && k in rows && rows[k] == r
      {
        var k :| k in todo;
        items, todo := items + [rows[k]], todo - {k};
      }
    }

    /** Writes some cells of each of the rows named. */
    method MultipleUpdate(updates: seq<Update>)
      requires DistinctKeys(updates) && forall u :: u in updates ==> u.key in rows
      modifies this
      ensures rows.Keys == old(rows.Keys)
      ensures forall u :: u in updates ==> rows[u.key] == old(rows)[u.key] + Attrs(u.cells)
      ensures forall k :: k in rows && (forall u :: u in updates ==> u.key != k) ==> rows[k] == old(rows)[k]
    {
      hide Attrs;
      for i := 0 to |updates|
        invariant rows.Keys == old(rows.Keys)
        invariant forall q :: 0 <= q < i ==> rows[updates[q].key] == old(rows)[updates[q].key] + Attrs(updates[q].cells)
        invariant forall k :: k in rows && (forall q :: 0 <= q < i ==> updates[q].key != k) ==> rows[k] == old(rows)[k]
      {
        var u := updates[i];
        assert u in updates;
        rows := rows[u.key := rows[u.key] + Attrs(u.cells)];
      }
    }

    /** Inserts new rows, all or none: a key that is taken is an error. */
    method InsertRowList(list: seq<Record>, primaryKey: seq<string>) returns (ok: bool)
      requires forall r :: r in list ==> CaseDistinct(r)
      modifies this
      ensures ok <==>
              Distinct(RowKeys(list, primaryKey)) && forall k :: k in RowKeys(list, primaryKey) ==> k !in old(rows)
      ensures !ok ==> rows == old(rows)
      ensures ok ==> rows.Keys == old(rows.Keys) + (set k | k in RowKeys(list, primaryKey))
      ensures ok ==> forall i :: 0 <= i < |list| ==> rows[RowKeys(list, primaryKey)[i]] == Attrs(list[i])
      ensures ok ==> forall k :: k in old(rows) ==> rows[k] == old(rows)[k]
    {
      hide RecordKey, CaseDistinct, Attrs, Distinct;
      var keys := RowKeys(list, primaryKey);
      NoneDistinct(keys);
      var filled := rows;
      for i := 0 to |list|
        invariant rows == old(rows)
        invariant forall k :: k in filled <==> k in rows || k in keys[..i]
        invariant forall q :: 0 <= q < i ==> keys[q] !in rows
        invariant Distinct(keys[..i])
        invariant forall q :: 0 <= q < i ==> keys[q] in filled && filled[keys[q]] == Attrs(list[q])
        invariant forall k :: k in rows ==> filled[k] == rows[k]
      {
        DistinctGrow(keys, i);
        if keys[i] in filled {
          return false;
        }
        assert keys[..i + 1] == keys[..i] + [keys[i]];
        filled := filled[keys[i] := Attrs(list[i])];
      }
      assert keys[..|list|] == keys;
      rows, ok := filled, true;
    }
  }

  // ----- The simulation -----

  /** The entry under the text `t` belongs to one of the wanted keys, and knows whether the table has it. */
  ghost predicate EntryKey(st: Statement, stored: map<Key, Item>, wanted: set<Key>, t: string, e: Entry) {
    && CaseDistinct(e.cur)
    && var k := RecordKey(e.cur, st.primaryKey);
    && KeyText(k) == t && k in wanted
    && (e.key.None? ==> k !in stored)
    && (e.key.Some? ==> e.key.value == k && k in stored && stored[k].Keys <= e.cur.Keys)
  }

  ghost predicate KeysOk(st: Statement, stored: map<Key, Item>, wanted: set<Key>, state: map<string, Entry>) {
    && (forall k :: k in stored && k in wanted ==> KeyText(k) in state && state[KeyText(k)].key == Some(k))
    && (forall t :: t in state ==> EntryKey(st, stored, wanted, t, state[t]))
  }

  ghost predicate MirrorsAll(state: map<string, Entry>, s: Sim) {
    && state.Keys == s.rows.Keys && s.noted.Keys <= s.rows.Keys
    && forall t :: t in state ==> Mirrors(state[t], s.rows[t], NotedFor(s, t))
  }

  /** A SET list that leaves the key alone. */
  ghost predicate KeepsKey(st: Statement) {
    forall i, p :: 0 <= i < |st.items| && 0 <= p < |st.primaryKey| ==>
      Lower(st.items[i].column) != Lower(st.primaryKey[p])
  }

  lemma {:induction false} AssignKeepsKey(st: Statement, was: Record, values: seq<Cell>, n: nat)
    requires KeepsKey(st) && n <= |st.items| == |values|
    ensures KeyCells(Assign(was, st.items[..n], values[..n]), st.primaryKey) == KeyCells(was, st.primaryKey)
  {
    hide Lower, Assign;
    if n == 0 {
      NothingAssigned(was, map[], st.items, values);
    } else {
      AssignKeepsKey(st, was, values, n - 1);
      AssignNext(was, st.items, values, n - 1);
    }
  }

  /** A key text met for the first time. */
  lemma SimulateNew(st: Statement, stored: map<Key, Item>, wanted: set<Key>, state: map<string, Entry>, s: Sim,
                    row: Record)
    requires KeysOk(st, stored, wanted, state) && MirrorsAll(state, s) && CaseDistinct(row)
    requires var k := RecordKey(row, st.primaryKey); k in wanted && KeyText(k) !in state
    ensures
      var t := KeyText(RecordKey(row, st.primaryKey));
      var state' := state[t := Entry(row, map[], None)];
      && KeysOk(st, stored, wanted, state')
      && MirrorsAll(state', s.(rows := s.rows[t := Fold(row)], affected := s.affected + 1))
  {
    hide RecordKey, KeyText, CaseDistinct, Fold, Mirrors;
    var k := RecordKey(row, st.primaryKey);
    var state' := state[KeyText(k) := Entry(row, map[], None)];
    forall t | t in state'
      ensures EntryKey(st, stored, wanted, t, state'[t])
    {
      assert t in state ==> EntryKey(st, stored, wanted, t, state[t]);
    }
    MirrorsItself(row);
  }

  lemma MirrorsItself(row: Record)
    requires CaseDistinct(row)
    ensures forall key :: Mirrors(Entry(row, map[], key), Fold(row), map[])
  {
    NothingFolded(row);
  }

  /** A key text the simulation holds already. */
  lemma SimulateAgain(st: Statement, stored: map<Key, Item>, wanted: set<Key>, state: map<string, Entry>,
                      t: string, next: Entry)
    requires KeysOk(st, stored, wanted, state) && t in state && CaseDistinct(next.cur)
    requires next.key == state[t].key && state[t].cur.Keys <= next.cur.Keys
    requires CaseDistinct(state[t].cur) && RecordKey(next.cur, st.primaryKey) == RecordKey(state[t].cur, st.primaryKey)
    ensures KeysOk(st, stored, wanted, state[t := next])
  {
    hide RecordKey, KeyText, CaseDistinct;
    var state' := state[t := next];
    assert EntryKey(st, stored, wanted, t, state[t]);
    forall u | u in state'
      ensures EntryKey(st, stored, wanted, u, state'[u])
    {
      assert EntryKey(st, stored, wanted, u, state[u]);
    }
  }

  /** One row of the list: either it starts a new entry, or it updates the one there is. */
  method SimulateRow(st: Statement, row: Record, state: map<string, Entry>, affected: nat, duplicates: nat,
                     ghost stored: map<Key, Item>, ghost wanted: set<Key>, ghost s: Sim)
    returns (state': Option<map<string, Entry>>, affected': nat, duplicates': nat)
    requires KeepsKey(st) && KeysOk(st, stored, wanted, state) && MirrorsAll(state, s)
    requires affected == s.affected && duplicates == s.duplicates
    requires CaseDistinct(row) && RecordKey(row, st.primaryKey) in wanted
    ensures state'.None? <==> SimRow(st, s, Fold(row)).None?
    ensures
      state'.Some? ==>
        var s' := SimRow(st, s, Fold(row)).value;
        && KeysOk(st, stored, wanted, state'.value) && MirrorsAll(state'.value, s')
        && affected' == s'.affected && duplicates' == s'.duplicates
  {
    hide RecordKey, CaseDistinct, Fold, KeyText, Lower, Changes, Assign, Noted, Evaluate, KeepsKey, KeysOk;
    var text := KeyText(RecordKey(row, st.primaryKey));
    RecordKeyIsFolded(row, st.primaryKey);
    affected', duplicates' := affected, duplicates;
    if text !in state {
      SimulateNew(st, stored, wanted, state, s, row);
      return Some(state[text := Entry(row, map[], None)]), affected + 1, duplicates;
    }
    var entry := state[text];
    var values := Evaluate(st.items, Fold(entry.cur), Fold(row));
    if values.None? {
      return None, affected, duplicates;
    }
    var next, changed := ApplyDuplicate(entry, st.items, values.value, s.rows[text], NotedFor(s, text));
    assert RecordKey(next.cur, st.primaryKey) == RecordKey(entry.cur, st.primaryKey) by {
      RecordKeyIsFolded(entry.cur, st.primaryKey);
      RecordKeyIsFolded(next.cur, st.primaryKey);
      AssignKeepsKey(st, Fold(entry.cur), values.value, |st.items|);
      assert st.items[..|st.items|] == st.items && values.value[..|st.items|] == values.value;
    }
    SimulateAgain(st, stored, wanted, state, text, next);
    return Some(state[text := next]), affected + (if changed then 2 else 1), duplicates + 1;
  }

  ghost predicate Rows(st: Statement, list: seq<Record>, wanted: set<Key>) {
    forall r :: r in list ==> CaseDistinct(r) && RecordKey(r, st.primaryKey) in wanted
  }

  ghost function FoldAll(list: seq<Record>): seq<Record>
    requires forall r :: r in list ==> CaseDistinct(r)
  {
    seq(|list|, i requires 0 <= i < |list| => Fold(list[i]))
  }

  /** The rows of the list, one after the other; nothing is written when an assignment fails. */
  method SimulateAll(st: Statement, list: seq<Record>, start: map<string, Entry>,
                     ghost stored: map<Key, Item>, ghost wanted: set<Key>, ghost s: Sim)
    returns (state: Option<map<string, Entry>>, affected: nat, duplicates: nat)
    requires KeepsKey(st) && Rows(st, list, wanted)
    requires KeysOk(st, stored, wanted, start) && MirrorsAll(start, s) && s.affected == s.duplicates == 0
    ensures state.None? <==> SimAll(st, s, FoldAll(list)).None?
    ensures
      state.Some? ==>
        var s' := SimAll(st, s, FoldAll(list)).value;
        && KeysOk(st, stored, wanted, state.value) && MirrorsAll(state.value, s')
        && affected == s'.affected && duplicates == s'.duplicates
  {
    hide RecordKey, CaseDistinct, Fold, KeyText, KeysOk, MirrorsAll, KeepsKey, SimAll, SimRow;
    ghost var rows := FoldAll(list);
    state, affected, duplicates := Some(start), 0, 0;
    SimNone(st, s, rows);
    for i := 0 to |list|
      invariant state.Some? && SimAll(st, s, rows[..i]).Some?
      invariant
        var front := SimAll(st, s, rows[..i]).value;
        && KeysOk(st, stored, wanted, state.value) && MirrorsAll(state.value, front)
        && affected == front.affected && duplicates == front.duplicates
    {
      ghost var front := SimAll(st, s, rows[..i]).value;
      assert list[i] in list;
      SimNext(st, s, rows, i);
      state, affected, duplicates :=
        SimulateRow(st, list[i], state.value, affected, duplicates, stored, wanted, front);
      if state.None? {
        SimFails(st, s, rows, i + 1);
        return;
      }
    }
    assert rows[..|list|] == rows;
  }

  lemma SimNone(st: Statement, s: Sim, rows: seq<Record>)
    ensures SimAll(st, s, rows[..0]) == Some(s)
  {
  }

  // ----- The whole statement -----

  ghost function Wanted(st: Statement, list: seq<Record>): set<Key>
    requires forall r :: r in list ==> CaseDistinct(r)
  {
    set k | k in RowKeys(list, st.primaryKey)
  }

  /** One row for each key text, the last one; the rows to read are asked for by their keys. */
  method UniqueKeys(st: Statement, list: seq<Record>) returns (keys: set<Key>)
    requires forall r :: r in list ==> CaseDistinct(r)
    ensures keys <= Wanted(st, list)
    ensures Injective(Wanted(st, list)) ==> keys == Wanted(st, list)
  {
    hide KeyText, CaseDistinct, RecordKey;
    var unique: map<string, Record> := map[];
    var rowKeys := RowKeys(list, st.primaryKey);
    for i := 0 to |list|
      invariant forall q :: 0 <= q < i ==> KeyText(rowKeys[q]) in unique
      invariant forall t :: t in unique ==> exists q :: 0 <= q < i && unique[t] == list[q] && KeyText(rowKeys[q]) == t
    {
      unique := unique[KeyText(rowKeys[i]) := list[i]];
    }
    keys := set t | t in unique :: RecordKey(unique[t], st.primaryKey);
    if Injective(Wanted(st, list)) {
      forall k | k in rowKeys
        ensures k in keys
      {
        var t := KeyText(k);
        var q :| 0 <= q < |list| && unique[t] == list[q] && KeyText(rowKeys[q]) == t;
        assert rowKeys[q] in rowKeys;
      }
    }
  }

  /** The rows read are the first entries. */
  method ReadState(st: Statement, table: Table, keys: set<Key>, ghost wanted: set<Key>)
    returns (state: map<string, Entry>)
    requires Stored(table.rows, st.primaryKey)
    requires keys <= wanted && keys * table.rows.Keys == wanted * table.rows.Keys
    requires Injective(wanted * table.rows.Keys)
    ensures KeysOk(st, table.rows, wanted, state)
    ensures MirrorsAll(state, Start(FoldTable(table.rows), wanted))
  {
    hide RecordKey, CaseDistinct, Fold, KeyText, StoredKey, Cells;
    var items := table.GetRowList(keys);
    ghost var stored := table.rows;
    state := map[];
    for i := 0 to |items|
      invariant forall t :: t in state ==> ReadEntry(st, stored, wanted, t, state[t])
      invariant forall q :: 0 <= q < i ==>
                  CaseDistinct(items[q]) && KeyText(StoredKey(items[q], st.primaryKey)) in state
    {
      var item := items[i];
      assert item in items;
      var key := StoredKey(item, st.primaryKey);
      ReadOne(st, item);
      state := state[KeyText(key) := Entry(Cells(item), map[], Some(key))];
    }
    forall k | k in stored && k in wanted
      ensures stored[k] in items
    {
      assert k in wanted * stored.Keys;
    }
    AllRead(st, stored, wanted, state, items);
  }

  /** The entry of a row just read. */
  ghost predicate ReadEntry(st: Statement, stored: map<Key, Item>, wanted: set<Key>, t: string, e: Entry) {
    && e.key.Some? && e.key.value in stored && e.key.value in wanted && KeyText(e.key.value) == t
    && e.cur == Cells(stored[e.key.value]) && e.changed == map[]
  }

  lemma ReadOne(st: Statement, item: Item)
    requires CaseDistinct(item)
    ensures CaseDistinct(Cells(item)) && RecordKey(Cells(item), st.primaryKey) == StoredKey(item, st.primaryKey)
  {
    SubsetDistinct(item, Cells(item));
  }

  lemma AllRead(st: Statement, stored: map<Key, Item>, wanted: set<Key>, state: map<string, Entry>, items: seq<Item>)
    requires Stored(stored, st.primaryKey) && Injective(wanted * stored.Keys)
    requires forall t :: t in state ==> ReadEntry(st, stored, wanted, t, state[t])
    requires forall k :: k in stored && k in wanted ==> stored[k] in items
    requires forall q :: 0 <= q < |items| ==>
               CaseDistinct(items[q]) && KeyText(StoredKey(items[q], st.primaryKey)) in state
    ensures KeysOk(st, stored, wanted, state) && MirrorsAll(state, Start(FoldTable(stored), wanted))
  {
    hide RecordKey, CaseDistinct, Fold, KeyText, StoredKey, Cells, Mirrors, EntryKey, FoldTable, Stored, Start,
         Injective, ReadEntry;
    StoredIs(st, stored);
    AllFound(st, stored, wanted, state, items);
    var folded := FoldTable(stored);
    assert wanted * folded.Keys == wanted * stored.Keys;
    var s := Start(folded, wanted);
    forall t | t in state
      ensures EntryKey(st, stored, wanted, t, state[t]) && t in s.rows && Mirrors(state[t], s.rows[t], NotedFor(s, t))
    {
      ReadIs(st, stored, wanted, t, state[t]);
      StartAt(folded, wanted, state[t].key.value);
    }
    forall t | t in s.rows
      ensures t in state
    {
      var k := StartOnly(folded, wanted, t);
    }
    StartNotes(folded, wanted);
  }

  lemma AllFound(st: Statement, stored: map<Key, Item>, wanted: set<Key>, state: map<string, Entry>, items: seq<Item>)
    requires Stored(stored, st.primaryKey) && Injective(wanted * stored.Keys)
    requires forall t :: t in state ==> ReadEntry(st, stored, wanted, t, state[t])
    requires forall k :: k in stored && k in wanted ==> stored[k] in items
    requires forall q :: 0 <= q < |items| ==>
               CaseDistinct(items[q]) && KeyText(StoredKey(items[q], st.primaryKey)) in state
    ensures forall k :: k in stored && k in wanted ==> KeyText(k) in state && state[KeyText(k)].key == Some(k)
  {
    hide CaseDistinct, KeyText, StoredKey, Cells;
    forall k | k in stored && k in wanted
      ensures KeyText(k) in state && state[KeyText(k)].key == Some(k)
    {
      var q :| 0 <= q < |items| && items[q] == stored[k];
      assert ReadEntry(st, stored, wanted, KeyText(k), state[KeyText(k)]);
    }
  }

  lemma StartAt(stored: map<Key, Item>, wanted: set<Key>, k: Key)
    requires Injective(wanted * stored.Keys) && k in stored && k in wanted
    ensures
      var s, t := Start(stored, wanted), KeyText(k);
      t in s.rows && s.rows[t] == Cells(stored[k]) && NotedFor(s, t) == map[]
  {
    hide KeyText, Cells;
  }

  lemma StartOnly(stored: map<Key, Item>, wanted: set<Key>, t: string) returns (k: Key)
    requires Injective(wanted * stored.Keys) && t in Start(stored, wanted).rows
    ensures k in stored && k in wanted && KeyText(k) == t
  {
    hide KeyText, Cells;
    k :| k in stored && k in wanted && KeyText(k) == t;
  }

  lemma StartNotes(stored: map<Key, Item>, wanted: set<Key>)
    requires Injective(wanted * stored.Keys)
    ensures Start(stored, wanted).noted == map[]
    ensures Start(stored, wanted).affected == Start(stored, wanted).duplicates == 0
  {
  }

  lemma ReadIs(st: Statement, stored: map<Key, Item>, wanted: set<Key>, t: string, e: Entry)
    requires Stored(stored, st.primaryKey) && ReadEntry(st, stored, wanted, t, e)
    ensures EntryKey(st, stored, wanted, t, e)
    ensures
      && e.key.Some? && e.key.value in stored && e.key.value in wanted && KeyText(e.key.value) == t
      && CaseDistinct(stored[e.key.value]) && Mirrors(e, Cells(Fold(stored[e.key.value])), map[])
  {
    hide RecordKey, CaseDistinct, Fold, KeyText, StoredKey, Cells;
    var item := stored[e.key.value];
    ReadOne(st, item);
    FoldCells(item);
    NothingFolded(e.cur);
    CellsKeys(item);
  }

  lemma NothingFolded(r: Record)
    ensures CaseDistinct<Cell>(map[]) && Fold<Cell>(map[]) == map[]
  {
  }

  lemma CellsKeys(item: Item)
    ensures Cells(item).Keys == item.Keys
  {
  }

  ghost predicate TextsOf(st: Statement, state: map<string, Entry>) {
    forall t :: t in state ==>
      && CaseDistinct(state[t].cur) && KeyText(RecordKey(state[t].cur, st.primaryKey)) == t
      && (state[t].key.Some? ==> state[t].key.value == RecordKey(state[t].cur, st.primaryKey))
  }

  /** `updates` lists the changed cells of the rows the table holds. */
  ghost predicate UpdatesOf(state: map<string, Entry>, updates: seq<Update>) {
    && DistinctKeys(updates)
    && (forall u :: u in updates ==>
          var t := KeyText(u.key);
          t in state && state[t].key == Some(u.key) && state[t].changed == u.cells)
    && (forall t :: t in state && state[t].key.Some? && state[t].changed != map[] ==>
          Update(state[t].key.value, state[t].changed) in updates)
  }

  /** `list` holds the rows the table does not. */
  ghost predicate InsertsOf(st: Statement, state: map<string, Entry>, list: seq<Record>) {
    && (forall r :: r in list ==> CaseDistinct(r))
    && Distinct(RowKeys(list, st.primaryKey))
    && (forall r :: r in list ==>
          var t := KeyText(RecordKey(r, st.primaryKey));
          t in state && state[t].key == None && state[t].cur == r)
    && (forall t :: t in state && state[t].key.None? ==> state[t].cur in list)
  }

  method UpdateList(st: Statement, state: map<string, Entry>) returns (updates: seq<Update>)
    requires TextsOf(st, state)
    ensures UpdatesOf(state, updates)
  {
    hide KeyText, CaseDistinct, RecordKey;
    updates := [];
    var todo := state.Keys;
    while todo != {}
      invariant todo <= state.Keys && DistinctKeys(updates)
      invariant forall u :: u in updates ==>
                  var t := KeyText(u.key);
                  t in state && t !in todo && state[t].key == Some(u.key) && state[t].changed == u.cells
      invariant forall t :: t in state && t !in todo && state[t].key.Some? && state[t].changed != map[] ==>
                  Update(state[t].key.value, state[t].changed) in updates
    {
      var t :| t in todo;
      todo := todo - {t};
      if state[t].key.Some? && state[t].changed != map[] {
        var u := Update(state[t].key.value, state[t].changed);
        assert forall v :: v in updates ==> v.key != u.key;
        updates := updates + [u];
      }
    }
  }

  method InsertList(st: Statement, state: map<string, Entry>) returns (list: seq<Record>)
    requires TextsOf(st, state)
    ensures InsertsOf(st, state, list)
  {
    hide KeyText, CaseDistinct, RecordKey;
    list := [];
    var todo := state.Keys;
    while todo != {}
      invariant todo <= state.Keys
      invariant forall r :: r in list ==> CaseDistinct(r)
      invariant Distinct(RowKeys(list, st.primaryKey))
      invariant forall r :: r in list ==>
                  var t := KeyText(RecordKey(r, st.primaryKey));
                  t in state && t !in todo && state[t].key == None && state[t].cur == r
      invariant forall t :: t in state && t !in todo && state[t].key.None? ==> state[t].cur in list
    {
      var t :| t in todo;
      todo := todo - {t};
      if state[t].key.None? {
        assert forall r :: r in list ==> RecordKey(r, st.primaryKey) != RecordKey(state[t].cur, st.primaryKey);
        assert RowKeys(list + [state[t].cur], st.primaryKey) ==
               RowKeys(list, st.primaryKey) + [RecordKey(state[t].cur, st.primaryKey)];
        list := list + [state[t].cur];
      }
    }
  }

  /** An entry whose row the table does not have. */
  ghost predicate IsNew(st: Statement, state: map<string, Entry>, k: Key) {
    var t := KeyText(k);
    t in state && state[t].key.None? && CaseDistinct(state[t].cur) && RecordKey(state[t].cur, st.primaryKey) == k
  }

  /** What the two bulk writes leave behind. */
  ghost predicate Wrote(st: Statement, stored: map<Key, Item>, wanted: set<Key>, state: map<string, Entry>,
                        rows: map<Key, Item>) {
    && (forall k :: k in rows <==> k in stored || IsNew(st, state, k))
    && (forall k :: k in stored && k !in wanted ==> rows[k] == stored[k])
    && (forall k :: k in stored && k in wanted ==>
          KeyText(k) in state && rows[k] == stored[k] + Attrs(state[KeyText(k)].changed))
    && (forall k :: IsNew(st, state, k) ==> rows[k] == Attrs(state[KeyText(k)].cur))
  }

  /** The keys of what is updated are in the table, those of what is inserted are not. */
  lemma ReadyToWrite(st: Statement, stored: map<Key, Item>, wanted: set<Key>, state: map<string, Entry>)
    requires KeysOk(st, stored, wanted, state)
    ensures TextsOf(st, state)
    ensures forall updates: seq<Update> | UpdatesOf(state, updates) ::
              forall u :: u in updates ==> u.key in stored && u.key in wanted
    ensures forall list: seq<Record> | InsertsOf(st, state, list) ::
              forall k :: k in RowKeys(list, st.primaryKey) <==> IsNew(st, state, k)
    ensures forall k :: IsNew(st, state, k) ==> k !in stored
  {
    hide RecordKey, CaseDistinct, KeyText;
    assert forall t :: t in state ==> EntryKey(st, stored, wanted, t, state[t]);
    forall updates: seq<Update>, u | UpdatesOf(state, updates) && u in updates
      ensures u.key in stored && u.key in wanted
    {
      assert EntryKey(st, stored, wanted, KeyText(u.key), state[KeyText(u.key)]);
    }
    forall list: seq<Record>, k | InsertsOf(st, state, list)
      ensures k in RowKeys(list, st.primaryKey) <==> IsNew(st, state, k)
    {
      InsertedKeys(st, state, list, k);
    }
  }

  lemma InsertedKeys(st: Statement, state: map<string, Entry>, list: seq<Record>, k: Key)
    requires InsertsOf(st, state, list) && TextsOf(st, state)
    ensures k in RowKeys(list, st.primaryKey) <==> IsNew(st, state, k)
  {
    hide RecordKey, CaseDistinct, KeyText;
    if k in RowKeys(list, st.primaryKey) {
      var i :| 0 <= i < |list| && RowKeys(list, st.primaryKey)[i] == k;
      assert list[i] in list;
    }
    if IsNew(st, state, k) {
      var i :| 0 <= i < |list| && list[i] == state[KeyText(k)].cur;
      assert RowKeys(list, st.primaryKey)[i] == k;
    }
  }

  lemma UpdatedRow(st: Statement, stored: map<Key, Item>, wanted: set<Key>, state: map<string, Entry>,
                   updates: seq<Update>, updated: map<Key, Item>, k: Key)
    requires KeysOk(st, stored, wanted, state) && UpdatesOf(state, updates)
    requires updated.Keys == stored.Keys && k in stored
    requires forall u :: u in updates ==> u.key in stored && updated[u.key] == stored[u.key] + Attrs(u.cells)
    requires forall q :: q in updated && (forall u :: u in updates ==> u.key != q) ==> updated[q] == stored[q]
    ensures k in wanted ==> KeyText(k) in state && updated[k] == stored[k] + Attrs(state[KeyText(k)].changed)
    ensures k !in wanted ==> updated[k] == stored[k]
  {
    hide RecordKey, CaseDistinct, KeyText, Attrs;
    if k in wanted {
      var e := state[KeyText(k)];
      if e.changed != map[] {
        assert Update(k, e.changed) in updates;
      } else {
        assert Attrs(map[]) == map[] by {
          NoAttrs();
        }
        assert stored[k] + map[] == stored[k];
        assert forall u :: u in updates && u.key == k ==> u.cells == map[];
      }
    } else {
      forall u | u in updates
        ensures u.key != k
      {
        assert EntryKey(st, stored, wanted, KeyText(u.key), state[KeyText(u.key)]);
      }
    }
  }

  lemma NoAttrs()
    ensures Attrs(map[]) == map[]
  {
  }

  lemma InsertedRow(st: Statement, state: map<string, Entry>, list: seq<Record>, rows: map<Key, Item>, k: Key)
    requires InsertsOf(st, state, list)
    requires forall q :: q in RowKeys(list, st.primaryKey) ==> q in rows
    requires forall i :: 0 <= i < |list| ==> rows[RowKeys(list, st.primaryKey)[i]] == Attrs(list[i])
    requires IsNew(st, state, k)
    ensures KeyText(k) in state && k in rows && rows[k] == Attrs(state[KeyText(k)].cur)
  {
    hide RecordKey, CaseDistinct, KeyText, Attrs;
    var i :| 0 <= i < |list| && list[i] == state[KeyText(k)].cur;
    assert RowKeys(list, st.primaryKey)[i] == k;
  }

  /** One bulk update and one bulk insert; the insert finds no key taken. */
  method Write(st: Statement, table: Table, state: map<string, Entry>, ghost wanted: set<Key>)
    requires KeysOk(st, table.rows, wanted, state)
    modifies table
    ensures Wrote(st, old(table.rows), wanted, state, table.rows)
  {
    hide RowKeys, CaseDistinct, KeyText, KeysOk, TextsOf, Distinct, IsNew, Attrs;
    ghost var stored := table.rows;
    ReadyToWrite(st, stored, wanted, state);
    var updates := UpdateList(st, state);
    table.MultipleUpdate(updates);
    ghost var updated := table.rows;
    var inserts := InsertList(st, state);
    var ok := table.InsertRowList(inserts, st.primaryKey);
    assert ok;
    forall k | k in stored
      ensures k in wanted ==> KeyText(k) in state && table.rows[k] == stored[k] + Attrs(state[KeyText(k)].changed)
      ensures k !in wanted ==> table.rows[k] == stored[k]
    {
      UpdatedRow(st, stored, wanted, state, updates, updated, k);
    }
    forall k | IsNew(st, state, k)
      ensures KeyText(k) in state && k in table.rows && table.rows[k] == Attrs(state[KeyText(k)].cur)
    {
      InsertedRow(st, state, inserts, table.rows, k);
    }
  }

  /** Row by row, the table is the one the specification has. */
  lemma WrittenRow(st: Statement, stored: map<Key, Item>, wanted: set<Key>, state: map<string, Entry>, s: Sim,
                   rows: map<Key, Item>, k: Key)
    requires KeysOk(st, stored, wanted, state) && MirrorsAll(state, s) && Wrote(st, stored, wanted, state, rows)
    requires Stored(stored, st.primaryKey) && k in rows
    ensures CaseDistinct(rows[k])
    ensures k in Written(st, FoldTable(stored), wanted, s)
    ensures Fold(rows[k]) == Written(st, FoldTable(stored), wanted, s)[k]
  {
    hide RecordKey, CaseDistinct, KeyText, Fold, Attrs, Stored, KeyCells, MirrorsAll, KeysOk, NewKeys, FoldTable;
    StoredIs(st, stored);
    if k in stored {
      if k in wanted {
        WrittenMerge(st, stored, wanted, state, s, k);
      }
    } else {
      WrittenNew(st, stored, wanted, state, s, k);
    }
  }

  lemma WrittenMerge(st: Statement, stored: map<Key, Item>, wanted: set<Key>, state: map<string, Entry>, s: Sim, k: Key)
    requires KeysOk(st, stored, wanted, state) && MirrorsAll(state, s) && k in stored && k in wanted
    ensures KeyText(k) in state
    ensures
      var cells := state[KeyText(k)].changed;
      && CaseDistinct(stored[k]) && CaseDistinct(stored[k] + Attrs(cells))
      && Fold(stored[k] + Attrs(cells)) == Fold(stored[k]) + Attrs(NotedFor(s, KeyText(k)))
  {
    hide RecordKey, CaseDistinct, KeyText, Fold, Attrs;
    var t := KeyText(k);
    assert EntryKey(st, stored, wanted, t, state[t]);
    assert Mirrors(state[t], s.rows[t], NotedFor(s, t));
    FoldMerge(stored[k], state[t].changed, state[t].cur);
  }

  lemma WrittenNew(st: Statement, stored: map<Key, Item>, wanted: set<Key>, state: map<string, Entry>, s: Sim, k: Key)
    requires KeysOk(st, stored, wanted, state) && MirrorsAll(state, s) && IsNew(st, state, k)
    requires forall q :: q in stored ==> CaseDistinct(stored[q])
    ensures
      var t := KeyText(k);
      && t in s.rows && CaseDistinct(Attrs(state[t].cur)) && Fold(Attrs(state[t].cur)) == Attrs(s.rows[t])
      && k in NewKeys(st, FoldTable(stored), wanted, s)
  {
    hide RecordKey, CaseDistinct, KeyText, Fold, Attrs, KeyCells, KeysOk, NewKeys;
    var t := KeyText(k);
    assert Mirrors(state[t], s.rows[t], NotedFor(s, t));
    FoldAttrs(state[t].cur);
    NewKeyIs(st, stored, wanted, state, s, t);
  }

  lemma StoredIs(st: Statement, stored: map<Key, Item>)
    requires Stored(stored, st.primaryKey)
    ensures forall q :: q in stored ==> CaseDistinct(stored[q])
    ensures FoldTable(stored).Keys == stored.Keys && forall q :: q in stored ==> FoldTable(stored)[q] == Fold(stored[q])
  {
  }

  /** The keys of the specification's new rows are those of the entries the table does not have. */
  lemma NewKeyIs(st: Statement, stored: map<Key, Item>, wanted: set<Key>, state: map<string, Entry>, s: Sim, t: string)
    requires KeysOk(st, stored, wanted, state) && MirrorsAll(state, s) && t in state
    requires forall q :: q in stored ==> CaseDistinct(stored[q])
    ensures state[t].key.None? <==> forall k :: k in FoldTable(stored) && k in wanted ==> KeyText(k) != t
    ensures KeyCells(s.rows[t], st.primaryKey) == RecordKey(state[t].cur, st.primaryKey)
    ensures state[t].key.None? ==> KeyCells(s.rows[t], st.primaryKey) in NewKeys(st, FoldTable(stored), wanted, s)
  {
    hide RecordKey, CaseDistinct, KeyText, Fold, KeyCells;
    assert EntryKey(st, stored, wanted, t, state[t]);
    RecordKeyIsFolded(state[t].cur, st.primaryKey);
    assert FoldTable(stored).Keys == stored.Keys;
  }

  lemma WrittenKeys(st: Statement, stored: map<Key, Item>, wanted: set<Key>, state: map<string, Entry>, s: Sim,
                    rows: map<Key, Item>, k: Key)
    requires KeysOk(st, stored, wanted, state) && MirrorsAll(state, s) && Wrote(st, stored, wanted, state, rows)
    requires forall q :: q in stored ==> CaseDistinct(stored[q])
    requires k in Written(st, FoldTable(stored), wanted, s)
    ensures k in rows
  {
    hide RecordKey, CaseDistinct, KeyText, Fold, Attrs, KeyCells;
    if k !in stored {
      var t :| t in s.rows && (forall q :: q in FoldTable(stored) && q in wanted ==> KeyText(q) != t) &&
        KeyCells(s.rows[t], st.primaryKey) == k;
      NewKeyIs(st, stored, wanted, state, s, t);
      assert EntryKey(st, stored, wanted, t, state[t]);
      assert IsNew(st, state, k);
    }
  }

  lemma WrittenIs(st: Statement, stored: map<Key, Item>, wanted: set<Key>, state: map<string, Entry>, s: Sim,
                  rows: map<Key, Item>)
    requires KeysOk(st, stored, wanted, state) && MirrorsAll(state, s) && Wrote(st, stored, wanted, state, rows)
    requires Stored(stored, st.primaryKey)
    ensures forall k :: k in rows ==> CaseDistinct(rows[k])
    ensures FoldTable(rows) == Written(st, FoldTable(stored), wanted, s)
  {
    hide KeysOk, MirrorsAll, Wrote, Written, CaseDistinct, Fold;
    forall k | k in rows
      ensures CaseDistinct(rows[k]) && k in Written(st, FoldTable(stored), wanted, s)
      ensures Fold(rows[k]) == Written(st, FoldTable(stored), wanted, s)[k]
    {
      WrittenRow(st, stored, wanted, state, s, rows, k);
    }
    StoredIs(st, stored);
    forall k | k in Written(st, FoldTable(stored), wanted, s)
      ensures k in rows
    {
      WrittenKeys(st, stored, wanted, state, s, rows, k);
    }
  }

  lemma WantedIs(st: Statement, list: seq<Record>)
    requires forall r :: r in list ==> CaseDistinct(r)
    ensures KeysOf(st, FoldAll(list)) == Wanted(st, list) && Rows(st, list, Wanted(st, list))
  {
    hide RecordKey, KeyCells, CaseDistinct, Fold;
    var keys, folded := RowKeys(list, st.primaryKey), FoldAll(list);
    forall i | 0 <= i < |list|
      ensures keys[i] == KeyCells(folded[i], st.primaryKey) && keys[i] in keys
    {
      RecordKeyIsFolded(list[i], st.primaryKey);
    }
    forall r | r in list
      ensures RecordKey(r, st.primaryKey) in keys
    {
      var i :| 0 <= i < |list| && list[i] == r;
      assert keys[i] == RecordKey(r, st.primaryKey) && keys[i] in keys;
    }
    forall k | k in Wanted(st, list)
      ensures k in KeysOf(st, folded)
    {
      var i :| 0 <= i < |keys| && keys[i] == k;
      assert KeyCells(folded[i], st.primaryKey) == k;
    }
  }

  /** The listed keys have texts of their own, or none of them is in the table. */
  ghost predicate Readable(stored: map<Key, Item>, wanted: set<Key>) {
    Injective(wanted) || wanted !! stored.Keys
  }

  /** INSERT ... ON DUPLICATE KEY UPDATE for any list of rows, with keys repeated or not: the table and the
      counts are what `Batch` says, and nothing is written when the statement fails. */
  method Run(st: Statement, table: Table, list: seq<Record>) returns (counts: Option<Counts>)
    requires KeepsKey(st) && Stored(table.rows, st.primaryKey)
    requires forall r :: r in list ==> CaseDistinct(r)
    requires Readable(table.rows, Wanted(st, list))
    modifies table
    ensures forall k :: k in table.rows ==> CaseDistinct(table.rows[k])
    ensures Injective(KeysOf(st, FoldAll(list)) * FoldTable(old(table.rows)).Keys)
    ensures counts.None? ==> table.rows == old(table.rows)
    ensures Batch(st, FoldTable(old(table.rows)), FoldAll(list)) ==
            if counts.None? then None else Some(Result(FoldTable(table.rows), counts.value))
  {
    hide RecordKey, CaseDistinct, Fold, KeyText, KeysOk, MirrorsAll, Wrote, Written, KeepsKey, SimAll, Wanted, KeysOf,
         Start;
    ghost var stored, wanted := table.rows, Wanted(st, list);
    var keys := UniqueKeys(st, list);
    WantedIs(st, list);
    ReadableIs(stored, wanted, keys);
    var start := ReadState(st, table, keys, wanted);
    ghost var s := Start(FoldTable(stored), wanted);
    assert FoldTable(stored).Keys == stored.Keys;
    StartNotes(FoldTable(stored), wanted);
    var state, affected, duplicates := SimulateAll(st, list, start, stored, wanted, s);
    if state.None? {
      return None;
    }
    Write(st, table, state.value, wanted);
    WrittenIs(st, stored, wanted, state.value, SimAll(st, s, FoldAll(list)).value, table.rows);
    counts := Some(Counts(affected, duplicates));
  }

  lemma ReadableIs(stored: map<Key, Item>, wanted: set<Key>, keys: set<Key>)
    requires Readable(stored, wanted) && keys <= wanted && (Injective(wanted) ==> keys == wanted)
    ensures keys * stored.Keys == wanted * stored.Keys && Injective(wanted * stored.Keys)
  {
  }
}
