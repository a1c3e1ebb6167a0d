/**
 Backup and undo of one keyed table (src/backup/mod.rs, src/sql/mysql.rs, src/backup/restore.rs): rows
 are captured before a change, within caps, and a restore plan writes them back one upsert a row.
*/
module Undo {
  import opened Wrappers
  import opened SqlText
  import opened UpsertText
  import Resolver
  import opened RenamePlan
  import opened RestoreGate
  import Extractor

  type Row = map<string, Value>

  /** Rows by primary key. */
  type Table = map<Value, Row>

  /** Column `pk` holds the key of every row. */
  ghost predicate Keyed(t: Table, columns: set<string>, pk: string) {
    pk in columns && forall k :: k in t ==> t[k].Keys == columns && t[k][pk] == k
  }

  // ----- Capture -----

  datatype Capture =
    | Captured(rows: seq<Row>, truncated: bool, bytes: nat)
    | RowOverflow
    | ByteOverflow

  function Least(a: nat, b: nat): nat {
    if a < b then a else b
  }

  /** What a server answers to the capture query, which asks for one row more than the cap. */
  function Limited(full: seq<Row>, rowCap: nat): seq<Row> {
    full[..Least(|full|, rowCap + 1)]
  }

  /** Abort refuses what does not fit the caps; Truncate keeps the first rows and says so. `size`: the
      length of rows as stored. */
  ghost predicate CaptureOf(full: seq<Row>, rowCap: nat, byteCap: nat, policy: Resolver.Overflow, size: seq<Row> -> nat,
                            c: Capture)
  {
    && (c.RowOverflow? <==> policy == Resolver.Abort && |full| > rowCap)
    && (c.ByteOverflow? <==> policy == Resolver.Abort && |full| <= rowCap && size(full) > byteCap)
    && (c.Captured? ==>
          && c.rows == full[..Least(|full|, rowCap)]
          && (c.truncated <==> |full| > rowCap)
          && c.bytes == size(c.rows))
  }

  method CaptureRows(answer: seq<Row>, rowCap: nat, byteCap: nat, policy: Resolver.Overflow, size: seq<Row> -> nat,
                     ghost full: seq<Row>)
    returns (c: Capture)
    requires answer == Limited(full, rowCap)
    ensures CaptureOf(full, rowCap, byteCap, policy, size, c)
  {
    var out: seq<Row> := [];
    var truncated := false;
    var i := 0;
    while i < |answer| && !truncated
      invariant 0 <= i <= |answer|
      invariant |out| <= rowCap && |out| <= |answer| && out == full[..|out|]
      invariant if truncated then |out| == rowCap < |full| else |out| == i
      decreases |answer| - i, !truncated
    {
      if |out| >= rowCap {
        truncated := true;
      } else {
        out := out + [answer[i]];
        i := i + 1;
      }
    }
    var bytes := size(out);
    assert full[..|full|] == full;
    if truncated && policy == Resolver.Abort {
      return RowOverflow;
    }
    if bytes > byteCap && policy == Resolver.Abort {
      return ByteOverflow;
    }
    c := Captured(out, truncated, bytes);
  }

  // ----- The plan -----

  /** The column names of a row, in some order. */
  method ColumnsOf(row: Row) returns (columns: seq<string>)
    ensures Lists(columns, row.Keys)
  {
    columns := [];
    var todo := row.Keys;
    while todo != {}
      invariant todo <= row.Keys
      invariant forall c :: c in row.Keys <==> c in todo || c in columns
      invariant forall c :: c in columns ==> c !in todo
      invariant forall i, j :: 0 <= i < j < |columns| ==> columns[i] != columns[j]
      decreases todo
    {
      var c :| c in todo;
      columns, todo := columns + [c], todo - {c};
    }
  }

  ghost predicate Lists(columns: seq<string>, names: set<string>) {
    && (forall c :: c in names <==> c in columns)
    && (forall i, j :: 0 <= i < j < |columns| ==> columns[i] != columns[j])
  }

  /** A column the row lacks is written as NULL. */
  function ValuesOf(row: Row, columns: seq<string>): seq<Value> {
    if columns == [] then []
    else [if columns[0] in row then row[columns[0]] else Null] + ValuesOf(row, columns[1..])
  }

  function Plan(d: Dialect, database: Option<string>, table: string, columns: seq<string>,
                rows: seq<Row>): seq<string> {
    if rows == [] then []
    else Plan(d, database, table, columns, rows[..|rows| - 1])
         + [PrintUpsert(d, database, table, columns, ValuesOf(rows[|rows| - 1], columns))]
  }

  method CollectValues(row: Row, columns: seq<string>) returns (values: seq<Value>)
    ensures values == ValuesOf(row, columns)
  {
    values := [];
    for j := 0 to |columns|
      invariant values + ValuesOf(row, columns[j..]) == ValuesOf(row, columns)
    {
      assert columns[j..][1..] == columns[j + 1..];
      values := values + [if columns[j] in row then row[columns[j]] else Null];
    }
  }

  /** The columns are those of the first row. */
  method PlanRestore(d: Dialect, database: Option<string>, table: string, rows: seq<Row>)
    returns (statements: seq<string>, ghost columns: seq<string>)
    ensures rows == [] ==> statements == []
    ensures rows != [] ==> Lists(columns, rows[0].Keys) && statements == Plan(d, database, table, columns, rows)
  {
    statements, columns := [], [];
    if rows == [] {
      return;
    }
    var cols := ColumnsOf(rows[0]);
    for i := 0 to |rows|
      invariant statements == Plan(d, database, table, cols, rows[..i])
    {
      assert rows[..i + 1][..i] == rows[..i];
      var values := CollectValues(rows[i], cols);
      statements := statements + [PrintUpsert(d, database, table, cols, values)];
    }
    assert rows[..|rows|] == rows;
    columns := cols;
  }

  // ----- The server -----

  /** The row an insert of `values` makes; columns left out are NULL. */
  function Inserted(all: set<string>, columns: seq<string>, values: seq<Value>): Row
    requires |columns| == |values|
  {
    if columns == [] then map c | c in all :: Null
    else
      var n := |columns| - 1;
      Inserted(all, columns[..n], values[..n])[columns[n] := values[n]]
  }

  /** `row` with each column of `sets` taken from `source`. */
  function Assigned(row: Row, source: Row, sets: seq<(string, string)>): Row {
    if sets == [] then row
    else
      var n := |sets| - 1;
      var before := Assigned(row, source, sets[..n]);
      if sets[n].1 in source then before[sets[n].0 := source[sets[n].1]] else before
  }

  /** A stored table and its shape. */
  datatype Relation = Relation(columns: set<string>, pk: string, rows: Table) {
    ghost predicate Valid() {
      Keyed(rows, columns, pk)
    }
  }

  type Server = map<TableId, Relation>

  /** An upsert on one table; None when the server refuses. */
  function Upserted(r: Relation, u: Upsert): Option<Relation> {
    if |u.columns| != |u.values| then None
    else
      var row := Inserted(r.columns, u.columns, u.values);
      if row.Keys != r.columns || r.pk !in row then None
      else if row[r.pk] !in r.rows then Some(r.(rows := r.rows[row[r.pk] := row]))
      else
        var merged := Assigned(r.rows[row[r.pk]], row, u.sets);
        if r.pk !in merged then None
        else Some(r.(rows := (r.rows - {row[r.pk]})[merged[r.pk] := merged]))
  }

  /** One statement in a session whose default database is `home`. */
  function Execute(d: Dialect, s: Server, home: Option<string>, text: string): Option<Server> {
    match ReadUpsert(d, text)
    case None => None
    case Some(u) =>
      var id := Resolve(TableRef(u.database, u.table), home);
      if id.None? || id.value !in s then None
      else
        match Upserted(s[id.value], u)
        case None => None
        case Some(r) => Some(s[id.value := r])
  }

  function ExecuteAll(d: Dialect, s: Server, home: Option<string>, statements: seq<string>): Option<Server> {
    if statements == [] then Some(s)
    else
      var n := |statements| - 1;
      match ExecuteAll(d, s, home, statements[..n])
      case None => None
      case Some(before) => Execute(d, before, home, statements[n])
  }

  /** All statements pass the gate first, or nothing is replayed. A replay is one transaction: a refused statement
      rolls all of it back. */
  function Replayed(d: Dialect, policy: Policy, s: Server, home: Option<string>, statements: seq<string>): Server {
    if forall t :: t in statements ==> Admits(d, policy, t) then ExecuteAll(d, s, home, statements).GetOr(s) else s
  }

  /** Every row passes the gate. */
  predicate Admitted(d: Dialect, policy: Policy, ref: TableRef, columns: seq<string>, rows: seq<Row>) {
    forall r :: r in rows ==> RowAdmitted(d, policy, ref, columns, ValuesOf(r, columns))
  }

  // ----- What a plan does -----

  /** The row the server stores for a captured one. */
  function Stored(d: Dialect, row: Row): Row {
    map c | c in row :: AsRead(d, row[c])
  }

  /** `t` with `rows` written over it by key. */
  function Overlay(d: Dialect, pk: string, t: Table, rows: seq<Row>): Table
    requires forall r :: r in rows ==> pk in r
  {
    if rows == [] then t
    else
      var n := |rows| - 1;
      Overlay(d, pk, t, rows[..n])[AsRead(d, rows[n][pk]) := Stored(d, rows[n])]
  }

  lemma {:induction false} InsertedIsTheRow(d: Dialect, all: set<string>, columns: seq<string>, row: Row)
    requires Lists(columns, row.Keys)
    requires row.Keys == all
    ensures |ValuesOf(row, columns)| == |columns| == |AllAsRead(d, ValuesOf(row, columns))|
    ensures Inserted(all, columns, AllAsRead(d, ValuesOf(row, columns))) == Stored(d, row)
  {
    hide Inserted, ValuesOf, AllAsRead, AsRead;
    ValuesAt(d, row, columns);
    var values := AllAsRead(d, ValuesOf(row, columns));
    InsertedAt(all, columns, values);
    var made := Inserted(all, columns, values);
    forall c | c in row ensures c in made && made[c] == AsRead(d, row[c]) {
      var i :| 0 <= i < |columns| && columns[i] == c;
    }
    assert made.Keys == Stored(d, row).Keys;
  }

  lemma {:induction false} ValuesAt(d: Dialect, row: Row, columns: seq<string>)
    requires forall c :: c in columns ==> c in row
    ensures |ValuesOf(row, columns)| == |columns| == |AllAsRead(d, ValuesOf(row, columns))|
    ensures forall i :: 0 <= i < |columns| ==> AllAsRead(d, ValuesOf(row, columns))[i] == AsRead(d, row[columns[i]])
    decreases |columns|
  {
    if columns != [] {
      ValuesAt(d, row, columns[1..]);
    }
  }

  lemma {:induction false} InsertedAt(all: set<string>, columns: seq<string>, values: seq<Value>)
    requires |columns| == |values|
    requires forall i, j :: 0 <= i < j < |columns| ==> columns[i] != columns[j]
    ensures Inserted(all, columns, values).Keys == all + set c | c in columns
    ensures forall i :: 0 <= i < |columns| ==> Inserted(all, columns, values)[columns[i]] == values[i]
    decreases |columns|
  {
    if columns != [] {
      var n := |columns| - 1;
      InsertedAt(all, columns[..n], values[..n]);
      assert columns == columns[..n] + [columns[n]];
    }
  }

  lemma {:induction false} AssignedIsTheSource(row: Row, source: Row, columns: seq<string>)
    requires row.Keys == source.Keys && forall c :: c in columns ==> c in source
    ensures Assigned(row, source, Twice(columns)).Keys == source.Keys
    ensures forall c :: c in source ==>
              Assigned(row, source, Twice(columns))[c] == if c in columns then source[c] else row[c]
    decreases |columns|
  {
    if columns != [] {
      var n := |columns| - 1;
      TwiceSnoc(columns);
      AssignedIsTheSource(row, source, columns[..n]);
      var sets := Twice(columns);
      assert sets[..|sets| - 1] == Twice(columns[..n]);
      assert columns == columns[..n] + [columns[n]];
    }
  }

  lemma {:induction false} TwiceSnoc(columns: seq<string>)
    requires columns != []
    ensures var n := |columns| - 1;
            Twice(columns) == Twice(columns[..n]) + [(columns[n], columns[n])]
    decreases |columns|
  {
    if |columns| > 1 {
      TwiceSnoc(columns[1..]);
      assert columns[1..][..|columns| - 2] == columns[..|columns| - 1][1..];
    }
  }

  /** The upsert of a row puts that row in place. */
  lemma UpsertPutsRow(d: Dialect, database: Option<string>, table: string, columns: seq<string>, r: Relation, row: Row)
    requires Lists(columns, row.Keys) && r.Valid() && row.Keys == r.columns
    ensures Upserted(r, Upsert(database, table, columns, AllAsRead(d, ValuesOf(row, columns)), Twice(columns)))
         == Some(r.(rows := r.rows[AsRead(d, row[r.pk]) := Stored(d, row)]))
  {
    hide AsRead, AllAsRead, Inserted, Assigned, Twice, ValuesOf;
    InsertedIsTheRow(d, row.Keys, columns, row);
    var key, stored := AsRead(d, row[r.pk]), Stored(d, row);
    assert stored.Keys == row.Keys;
    if key in r.rows {
      AssignedIsTheSource(r.rows[key], stored, columns);
      assert Assigned(r.rows[key], stored, Twice(columns)) == stored;
      assert (r.rows - {key})[key := stored] == r.rows[key := stored];
    }
  }

  /** One statement of a plan, on the table it names. */
  lemma OneStatement(d: Dialect, s: Server, home: Option<string>, ref: TableRef, columns: seq<string>, row: Row)
    requires var id := Resolve(ref, home);
             && id.Some? && id.value in s && s[id.value].Valid()
             && Lists(columns, row.Keys) && row.Keys == s[id.value].columns
    ensures var id := Resolve(ref, home).value; var r := s[id];
            Execute(d, s, home, PrintUpsert(d, ref.database, ref.table, columns, ValuesOf(row, columns)))
            == Some(s[id := r.(rows := r.rows[AsRead(d, row[r.pk]) := Stored(d, row)])])
  {
    hide PrintUpsert, ReadUpsert, AsRead, Stored, Upserted, AllAsRead, Twice;
    ValuesAt(d, row, columns);
    hide ValuesOf;
    UpsertRoundTrip(d, ref.database, ref.table, columns, ValuesOf(row, columns));
    UpsertPutsRow(d, ref.database, ref.table, columns, s[Resolve(ref, home).value], row);
  }

  lemma ExecuteAllSnoc(d: Dialect, s: Server, home: Option<string>, statements: seq<string>, last: string)
    ensures ExecuteAll(d, s, home, statements + [last])
         == match ExecuteAll(d, s, home, statements)
            case None => None
            case Some(before) => Execute(d, before, home, last)
  {
    hide Execute;
    assert (statements + [last])[..|statements|] == statements;
  }

  lemma OverlayStaysKeyed(d: Dialect, pk: string, t: Table, row: Row)
    requires pk in row && Keyed(t, row.Keys, pk)
    ensures Keyed(t[AsRead(d, row[pk]) := Stored(d, row)], row.Keys, pk)
  {
    hide AsRead;
    assert Stored(d, row).Keys == row.Keys;
  }

  /** A relation with `rows` written over it. */
  function Overlaid(d: Dialect, r: Relation, rows: seq<Row>): Relation
    requires forall row :: row in rows ==> r.pk in row
  {
    r.(rows := Overlay(d, r.pk, r.rows, rows))
  }

  lemma OverlaidSnoc(d: Dialect, r: Relation, rows: seq<Row>)
    requires rows != [] && r.pk in r.columns && forall row :: row in rows ==> row.Keys == r.columns
    requires Overlaid(d, r, rows[..|rows| - 1]).Valid()
    ensures var last, before := rows[|rows| - 1], Overlaid(d, r, rows[..|rows| - 1]);
            && Overlaid(d, r, rows)
               == before.(rows := before.rows[AsRead(d, last[r.pk]) := Stored(d, last)])
            && Overlaid(d, r, rows).Valid()
  {
    hide AsRead, Stored;
    OverlayStaysKeyed(d, r.pk, Overlaid(d, r, rows[..|rows| - 1]).rows, rows[|rows| - 1]);
  }

  /** A plan whose table is there overlays it with the rows, and touches nothing else. */
  lemma {:induction false} PlanPutsRows(d: Dialect, s: Server, home: Option<string>, ref: TableRef,
                                        columns: seq<string>, rows: seq<Row>)
    requires var id := Resolve(ref, home);
             id.Some? && id.value in s && s[id.value].Valid() && (rows != [] ==> Lists(columns, s[id.value].columns))
    requires forall r :: r in rows ==> r.Keys == s[Resolve(ref, home).value].columns
    ensures var id := Resolve(ref, home).value;
            && Overlaid(d, s[id], rows).Valid()
            && ExecuteAll(d, s, home, Plan(d, ref.database, ref.table, columns, rows))
               == Some(s[id := Overlaid(d, s[id], rows)])
    decreases |rows|
  {
    var id := Resolve(ref, home).value;
    var r := s[id];
    if rows == [] {
      assert s[id := r.(rows := r.rows)] == s;
    } else {
      PkIsThere(r, rows);
      hide ExecuteAll, Plan, Lists, Overlaid, Resolve, Keyed, AsRead, Stored;
      var init := rows[..|rows| - 1];
      assert rows[|rows| - 1] in rows && forall r :: r in init ==> r in rows;
      PlanPutsRows(d, s, home, ref, columns, init);
      OverlaidKeepsShape(d, r, init);
      OverlaidSnoc(d, r, rows);
      PlanStep(d, s, home, ref, columns, rows, id, Overlaid(d, r, init));
    }
  }

  lemma PlanSnoc(d: Dialect, database: Option<string>, table: string, columns: seq<string>, rows: seq<Row>)
    requires rows != []
    ensures Plan(d, database, table, columns, rows)
         == Plan(d, database, table, columns, rows[..|rows| - 1])
            + [PrintUpsert(d, database, table, columns, ValuesOf(rows[|rows| - 1], columns))]
  {
  }

  lemma PkIsThere(r: Relation, rows: seq<Row>)
    requires r.Valid() && forall row :: row in rows ==> row.Keys == r.columns
    ensures r.pk in r.columns && forall row :: row in rows ==> r.pk in row
  {
  }

  /** One more row of a plan, from the table as the rows before left it. */
  lemma PlanStep(d: Dialect, s: Server, home: Option<string>, ref: TableRef, columns: seq<string>, rows: seq<Row>,
                 id: TableId, before: Relation)
    requires Resolve(ref, home) == Some(id) && before.Valid() && rows != []
    requires Lists(columns, rows[|rows| - 1].Keys) && rows[|rows| - 1].Keys == before.columns
        && before.pk in before.columns
    requires ExecuteAll(d, s, home, Plan(d, ref.database, ref.table, columns, rows[..|rows| - 1]))
          == Some(s[id := before])
    ensures var last := rows[|rows| - 1];
            ExecuteAll(d, s, home, Plan(d, ref.database, ref.table, columns, rows))
            == Some(s[id := before.(rows := before.rows[AsRead(d, last[before.pk]) := Stored(d, last)])])
  {
    hide Execute, ExecuteAll, Plan, PrintUpsert, AsRead, ValuesOf, Lists, Stored, Resolve, Keyed;
    var init, last := rows[..|rows| - 1], rows[|rows| - 1];
    PlanSnoc(d, ref.database, ref.table, columns, rows);
    OneStatement(d, s[id := before], home, ref, columns, last);
    ExecuteAllSnoc(d, s, home, Plan(d, ref.database, ref.table, columns, init),
                   PrintUpsert(d, ref.database, ref.table, columns, ValuesOf(last, columns)));
    var after := before.(rows := before.rows[AsRead(d, last[before.pk]) := Stored(d, last)]);
    assert s[id := before][id := after] == s[id := after];
  }

  lemma OverlaidKeepsShape(d: Dialect, r: Relation, rows: seq<Row>)
    requires forall row :: row in rows ==> r.pk in row
    ensures Overlaid(d, r, rows).columns == r.columns && Overlaid(d, r, rows).pk == r.pk
  {
  }

  /** Whatever a plan meets, it changes at most the table it names. */
  lemma {:induction false} PlanLeavesOthers(d: Dialect, s: Server, home: Option<string>, ref: TableRef,
                                            columns: seq<string>, rows: seq<Row>, other: TableId)
    requires (rows != [] ==> columns != []) && other in s && Resolve(ref, home) != Some(other)
    ensures var done := ExecuteAll(d, s, home, Plan(d, ref.database, ref.table, columns, rows));
            done.Some? ==> other in done.value && done.value[other] == s[other]
    decreases |rows|
  {
    if rows != [] {
      hide ExecuteAll, PrintUpsert, ReadUpsert, ValuesOf, AllAsRead, Twice, Upserted;
      var n := |rows| - 1;
      PlanLeavesOthers(d, s, home, ref, columns, rows[..n], other);
      ValuesAreThere(rows[n], columns);
      UpsertRoundTrip(d, ref.database, ref.table, columns, ValuesOf(rows[n], columns));
      ExecuteAllSnoc(d, s, home, Plan(d, ref.database, ref.table, columns, rows[..n]),
                     PrintUpsert(d, ref.database, ref.table, columns, ValuesOf(rows[n], columns)));
    }
  }

  lemma ValuesAreThere(row: Row, columns: seq<string>)
    requires columns != []
    ensures ValuesOf(row, columns) != []
  {
  }

  lemma {:induction false} PlanAdmittedIff(d: Dialect, policy: Policy, ref: TableRef, columns: seq<string>,
                                           rows: seq<Row>)
    ensures (forall t :: t in Plan(d, ref.database, ref.table, columns, rows) ==> Admits(d, policy, t))
       <==> Admitted(d, policy, ref, columns, rows)
    decreases |rows|
  {
    hide Admits, PrintUpsert, ValuesOf;
    if rows != [] {
      var n := |rows| - 1;
      PlanAdmittedIff(d, policy, ref, columns, rows[..n]);
      assert rows == rows[..n] + [rows[n]];
      assert RowAdmitted(d, policy, ref, columns, ValuesOf(rows[n], columns))
        <==> Admits(d, policy, PrintUpsert(d, ref.database, ref.table, columns, ValuesOf(rows[n], columns)));
    }
  }

  // ----- When a restore is exact -----

  /** `rows` are rows of `t`. */
  ghost predicate RowsOf(rows: seq<Row>, t: Table, pk: string) {
    forall r :: r in rows ==> pk in r && r[pk] in t && t[r[pk]] == r
  }

  /** Printing and reading leaves the row as it is. */
  ghost predicate ReadsBack(d: Dialect, row: Row) {
    forall c :: c in row ==> AsRead(d, row[c]) == row[c]
  }

  /** The key `k` of `t` has its row among `rows`. */
  ghost predicate Among(t: Table, k: Value, rows: seq<Row>) {
    k in t && t[k] in rows
  }

  lemma StoredIsTheRow(d: Dialect, row: Row, pk: string)
    requires ReadsBack(d, row) && pk in row
    ensures Stored(d, row) == row && AsRead(d, row[pk]) == row[pk]
  {
    hide AsRead;
  }

  lemma AmongGrows(names: set<string>, pk: string, before: Table, init: seq<Row>, last: Row, k: Value)
    requires Keyed(before, names, pk) && RowsOf([last], before, pk)
    ensures Among(before, k, init + [last]) <==> Among(before, k, init) || k == last[pk]
    ensures Among(before, k, init + [last]) && k == last[pk] ==> before[k] == last
  {
    assert last in [last];
  }

  lemma {:induction false} OverlayAt(d: Dialect, names: set<string>, pk: string, before: Table, t: Table,
                                     rows: seq<Row>, k: Value)
    requires Keyed(before, names, pk) && RowsOf(rows, before, pk)
    requires forall r :: r in rows ==> ReadsBack(d, r)
    ensures var o := Overlay(d, pk, t, rows);
            && (k in o <==> k in t || Among(before, k, rows))
            && (k in o ==> o[k] == if Among(before, k, rows) then before[k] else t[k])
    decreases |rows|
  {
    hide AsRead;
    if rows != [] {
      var n := |rows| - 1;
      var init, last := rows[..n], rows[n];
      assert rows == init + [last] && last in rows;
      assert forall r :: r in init ==> r in rows;
      OverlayAt(d, names, pk, before, t, init, k);
      StoredIsTheRow(d, last, pk);
      AmongGrows(names, pk, before, init, last, k);
      hide Stored, ReadsBack, Among, Keyed, RowsOf;
    }
  }

  /** The change from `before` to `after` at `k` is made good by writing back `rows`. */
  ghost predicate MadeGood(before: Table, after: Table, rows: seq<Row>, k: Value) {
    k in before && (before[k] in rows || (k in after && after[k] == before[k]))
  }

  lemma KeyedRows(t: Table, names: set<string>, pk: string, rows: seq<Row>)
    requires RowsOf(rows, t, pk)
    ensures forall r :: r in rows ==> pk in r
  {
  }

  /**
   For any change at all: writing captured rows back gives the old table exactly when the change added
   no key and every row it touched was captured.
  */
  lemma RestoreIsExactIff(d: Dialect, names: set<string>, pk: string, before: Table, after: Table, rows: seq<Row>)
    requires Keyed(before, names, pk) && RowsOf(rows, before, pk)
    requires forall r :: r in rows ==> ReadsBack(d, r)
    ensures Overlay(d, pk, after, rows) == before
       <==> && (forall k :: k in after ==> k in before)
            && (forall k :: k in before ==> MadeGood(before, after, rows, k))
  {
    hide Overlay, AsRead, Keyed, RowsOf, ReadsBack;
    KeyedRows(before, names, pk, rows);
    var o := Overlay(d, pk, after, rows);
    forall k
      ensures k in o <==> k in after || Among(before, k, rows)
      ensures k in o ==> o[k] == if Among(before, k, rows) then before[k] else after[k]
    {
      OverlayAt(d, names, pk, before, after, rows, k);
    }
    if (forall k :: k in after ==> k in before) && (forall k :: k in before ==> MadeGood(before, after, rows, k)) {
      forall k ensures k in o <==> k in before {
        assert k in before ==> MadeGood(before, after, rows, k);
      }
      forall k | k in before ensures o[k] == before[k] {
        assert MadeGood(before, after, rows, k);
      }
    }
    if o == before {
      forall k | k in after ensures k in before {
        assert k in o;
      }
      forall k | k in before ensures MadeGood(before, after, rows, k) {
        assert k in o;
      }
    }
  }

  // ----- Changes -----

  datatype Change =
    | Delete(where: Row -> bool)
    | Update(where: Row -> bool, set': Row -> Row)

  function Mutate(t: Table, change: Change): Table {
    match change
    case Delete(where) => map k | k in t && !where(t[k]) :: t[k]
    case Update(where, set') => map k | k in t :: if where(t[k]) then set'(t[k]) else t[k]
  }

  /** An update leaves the key of every row it touches. */
  ghost predicate KeepsKeys(t: Table, change: Change, names: set<string>, pk: string) {
    change.Update? ==>
      forall k :: k in t && change.where(t[k]) ==>
        change.set'(t[k]).Keys == names && pk in change.set'(t[k]) && change.set'(t[k])[pk] == k
  }

  /** What the capture query without its limit would list: the rows the change will touch. */
  ghost predicate Touched(full: seq<Row>, t: Table, change: Change, pk: string) {
    RowsOf(full, t, pk) && forall k :: k in t ==> (t[k] in full <==> change.where(t[k]))
  }

  lemma CapturedAreRows(t: Table, change: Change, names: set<string>, pk: string, full: seq<Row>, rows: seq<Row>)
    requires Keyed(t, names, pk) && Touched(full, t, change, pk) && rows <= full
    ensures RowsOf(rows, t, pk) && pk in names
    ensures forall r :: r in rows ==> r in full && r.Keys == names
  {
    forall r | r in rows ensures r in full {
      var i :| 0 <= i < |rows| && rows[i] == r;
      assert full[i] == r;
    }
  }

  lemma MutatedIsKeyed(t: Table, change: Change, names: set<string>, pk: string)
    requires Keyed(t, names, pk) && KeepsKeys(t, change, names, pk)
    ensures Keyed(Mutate(t, change), names, pk)
    ensures forall k :: k in Mutate(t, change) ==> k in t
  {
  }

  // ----- Which table is changed, and which one the backup names -----

  /** The name stored with a backup of `ref`: the database of the call or connection comes before the table's own
      qualifier on MySQL, and SQLite never looks at the qualifier. */
  function Named(d: Dialect, ref: TableRef, executing: Option<string>): TableRef {
    TableRef(if d == MySql then Resolver.OrElse(executing, ref.database) else executing, ref.table)
  }

  /** The database the session of a restore starts in. */
  function Home(d: Dialect, recorded: Option<string>): Option<string> {
    if d == MySql then recorded else Some("main")
  }

  /** The table a restore plan means. */
  function Meant(d: Dialect, name: TableRef): Option<TableId> {
    Resolve(name, Home(d, name.database))
  }

  /** On MySQL the backup names another table exactly for a qualifier that differs from the database in use;
      on SQLite exactly when the database in use is not the one the table is in. */
  predicate NamesItsTable(d: Dialect, ref: TableRef, executing: Option<string>) {
    if d == MySql then ref.database.None? || executing.None? || ref.database == executing
    else executing.GetOr("main") == ref.database.GetOr("main")
  }

  lemma SameTableIff(d: Dialect, ref: TableRef, executing: Option<string>)
    requires Extractor.Hit(d, ref, executing).Some?
    ensures Meant(d, Named(d, ref, executing)) == Extractor.Hit(d, ref, executing) <==> NamesItsTable(d, ref, executing)
  {
  }

  function Changed(s: Server, hit: TableId, change: Change): Server
    requires hit in s
  {
    s[hit := s[hit].(rows := Mutate(s[hit].rows, change))]
  }

  /** The server after the change and a replay of the plan for `rows` under the recorded name. */
  function Restored(d: Dialect, policy: Policy, s: Server, hit: TableId, change: Change, name: TableRef,
                    columns: seq<string>, rows: seq<Row>): Server
    requires hit in s
  {
    Replayed(d, policy, Changed(s, hit, change), Home(d, name.database),
             Plan(d, name.database, name.table, columns, rows))
  }

  /** The change is one the results are about: it hits a table of the server and keeps its keys. */
  ghost predicate Hits(s: Server, hit: TableId, change: Change) {
    && hit in s && s[hit].Valid()
    && KeepsKeys(s[hit].rows, change, s[hit].columns, s[hit].pk)
  }

  /** `full` lists the rows it touches. */
  ghost predicate Sound(s: Server, hit: TableId, change: Change, full: seq<Row>) {
    Hits(s, hit, change) && Touched(full, s[hit].rows, change, s[hit].pk)
  }

  /** The columns of a plan are those of its first row. */
  ghost predicate PlanColumns(columns: seq<string>, rows: seq<Row>) {
    rows != [] ==> Lists(columns, rows[0].Keys)
  }

  predicate LeftAsWas(change: Change, row: Row) {
    change.Update? && change.set'(row) == row
  }

  lemma PlanRuns(d: Dialect, s: Server, name: TableRef, columns: seq<string>, rows: seq<Row>, id: TableId)
    requires Meant(d, name) == Some(id) && id in s && s[id].Valid() && PlanColumns(columns, rows)
    requires forall r :: r in rows ==> r.Keys == s[id].columns
    ensures forall r :: r in rows ==> s[id].pk in r
    ensures ExecuteAll(d, s, Home(d, name.database), Plan(d, name.database, name.table, columns, rows))
         == Some(s[id := Overlaid(d, s[id], rows)])
  {
    PkIsThere(s[id], rows);
    assert rows != [] ==> rows[0] in rows;
    hide Plan, ExecuteAll, Overlaid, Keyed, Lists, Resolve, Home;
    PlanPutsRows(d, s, Home(d, name.database), name, columns, rows);
  }

  lemma ReplayPutsRows(d: Dialect, policy: Policy, s: Server, name: TableRef, columns: seq<string>, rows: seq<Row>,
                       id: TableId)
    requires Meant(d, name) == Some(id) && id in s && s[id].Valid() && PlanColumns(columns, rows)
    requires forall r :: r in rows ==> r.Keys == s[id].columns
    ensures forall r :: r in rows ==> s[id].pk in r
    ensures Replayed(d, policy, s, Home(d, name.database), Plan(d, name.database, name.table, columns, rows))
         == if Admitted(d, policy, name, columns, rows) then s[id := Overlaid(d, s[id], rows)] else s
  {
    hide *;
    PlanRuns(d, s, name, columns, rows, id);
    PlanAdmittedIff(d, policy, name, columns, rows);
    ReplayIs(d, policy, s, Home(d, name.database), Plan(d, name.database, name.table, columns, rows));
  }

  lemma ReplayIs(d: Dialect, policy: Policy, s: Server, home: Option<string>, plan: seq<string>)
    requires ExecuteAll(d, s, home, plan).Some?
    ensures Replayed(d, policy, s, home, plan)
         == if forall t :: t in plan ==> Admits(d, policy, t) then ExecuteAll(d, s, home, plan).value else s
  {
    hide Admits, ExecuteAll;
  }

  /** When the backup names the table that was changed, a replay that passes the gate overlays that table, and
      otherwise nothing happens. */
  lemma RestoredSame(d: Dialect, policy: Policy, s: Server, hit: TableId, change: Change, full: seq<Row>,
                     name: TableRef, columns: seq<string>, rows: seq<Row>)
    requires Sound(s, hit, change, full) && rows <= full && PlanColumns(columns, rows) && Meant(d, name) == Some(hit)
    ensures var r := s[hit];
            && (forall row :: row in rows ==> r.pk in row)
            && Restored(d, policy, s, hit, change, name, columns, rows)
               == if Admitted(d, policy, name, columns, rows)
                  then s[hit := r.(rows := Overlay(d, r.pk, Mutate(r.rows, change), rows))]
                  else Changed(s, hit, change)
  {
    hide Plan, Replayed, Overlay, Mutate, Keyed, PlanColumns, KeepsKeys, Touched, Admitted, Meant;
    var r := s[hit];
    CapturedAreRows(r.rows, change, r.columns, r.pk, full, rows);
    MutatedIsKeyed(r.rows, change, r.columns, r.pk);
    ReplayPutsRows(d, policy, Changed(s, hit, change), name, columns, rows, hit);
  }

  /** Otherwise the changed table stays as the change left it. */
  lemma RestoredElsewhere(d: Dialect, policy: Policy, s: Server, hit: TableId, change: Change,
                          name: TableRef, columns: seq<string>, rows: seq<Row>)
    requires hit in s && Meant(d, name) != Some(hit) && (rows != [] ==> columns != [])
    ensures var end := Restored(d, policy, s, hit, change, name, columns, rows);
            hit in end && end[hit].rows == Mutate(s[hit].rows, change)
  {
    hide Plan, ExecuteAll, Mutate, Admits;
    PlanLeavesOthers(d, Changed(s, hit, change), Home(d, name.database), name, columns, rows, hit);
  }

  lemma PlanHasColumns(columns: seq<string>, rows: seq<Row>)
    requires PlanColumns(columns, rows) && (rows != [] ==> rows[0].Keys != {})
    ensures rows != [] ==> columns != []
  {
  }

  lemma MadeGoodIff(t: Table, change: Change, names: set<string>, pk: string, full: seq<Row>, rows: seq<Row>)
    requires Keyed(t, names, pk) && KeepsKeys(t, change, names, pk) && Touched(full, t, change, pk)
    requires forall r :: r in rows ==> r in full
    ensures (forall k :: k in t ==> MadeGood(t, Mutate(t, change), rows, k))
       <==> forall r :: r in full ==> r in rows || LeftAsWas(change, r)
  {
    var after := Mutate(t, change);
    if forall k :: k in t ==> MadeGood(t, after, rows, k) {
      forall r | r in full ensures r in rows || LeftAsWas(change, r) {
        assert MadeGood(t, after, rows, r[pk]);
      }
    }
  }

  lemma UnchangedIff(t: Table, change: Change, names: set<string>, pk: string, full: seq<Row>)
    requires Keyed(t, names, pk) && KeepsKeys(t, change, names, pk) && Touched(full, t, change, pk)
    ensures Mutate(t, change) == t <==> forall r :: r in full ==> LeftAsWas(change, r)
  {
    var after := Mutate(t, change);
    if after == t {
      forall r | r in full ensures LeftAsWas(change, r) {
        assert t[r[pk]] == r && r[pk] in after;
      }
    }
    if forall r :: r in full ==> LeftAsWas(change, r) {
      forall k | k in t ensures k in after && after[k] == t[k] {
        assert t[k] in full <==> change.where(t[k]);
      }
      assert after.Keys == t.Keys;
    }
  }

  /**
   Undo of a DELETE or key-preserving UPDATE gives the changed table back exactly when every touched row
   was left as it was, or was captured under the name of the table it is in and all captured rows pass the
   gate. Then no other table changes.
  */
  lemma UndoIsExactIff(d: Dialect, policy: Policy, s: Server, hit: TableId, change: Change, full: seq<Row>,
                       name: TableRef, columns: seq<string>, rows: seq<Row>)
    requires Sound(s, hit, change, full) && rows <= full && PlanColumns(columns, rows)
    requires forall r :: r in rows ==> ReadsBack(d, r)
    ensures var end := Restored(d, policy, s, hit, change, name, columns, rows);
            var reached := Meant(d, name) == Some(hit) && Admitted(d, policy, name, columns, rows);
            && hit in end
            && (end[hit].rows == s[hit].rows
                <==> forall r :: r in full ==> LeftAsWas(change, r) || (reached && r in rows))
            && (Meant(d, name) == Some(hit) && end[hit].rows == s[hit].rows ==> end == s)
  {
    hide Restored, Overlay, AsRead, Mutate, MadeGood, Keyed, Lists, KeepsKeys, Touched, ReadsBack, Admitted, Meant,
        RowsOf;
    var r := s[hit];
    CapturedAreRows(r.rows, change, r.columns, r.pk, full, rows);
    UnchangedIff(r.rows, change, r.columns, r.pk, full);
    if Meant(d, name) == Some(hit) {
      RestoredSame(d, policy, s, hit, change, full, name, columns, rows);
      if Admitted(d, policy, name, columns, rows) {
        MutatedIsKeyed(r.rows, change, r.columns, r.pk);
        RestoreIsExactIff(d, r.columns, r.pk, r.rows, Mutate(r.rows, change), rows);
        MadeGoodIff(r.rows, change, r.columns, r.pk, full, rows);
      }
    } else {
      RowsHaveKeys(rows, r.rows, r.pk);
      PlanHasColumns(columns, rows);
      RestoredElsewhere(d, policy, s, hit, change, name, columns, rows);
    }
  }

  /** A deleted row that reads C# keeps the whole table from coming back, on both dialects. */
  lemma HashIsNotRestored(d: Dialect, policy: Policy, s: Server, hit: TableId, where: Row -> bool, full: seq<Row>,
                          name: TableRef, columns: seq<string>, row: Row, key: int)
    requires Sound(s, hit, Delete(where), full) && PlanColumns(columns, full)
    requires row in full && ValuesOf(row, columns) == [Number(key), Text("C#")]
    requires PlainNames(name, columns)
    requires !TableContains(name, LOCKING) && forall c :: c in columns ==> !Contains(c, LOCKING)
    ensures var end := Restored(d, policy, s, hit, Delete(where), name, columns, full);
            hit in end && end[hit].rows != s[hit].rows
  {
    assert columns != [];
    hide Restored, Mutate, KeepsKeys, Keyed, Lists, RowAdmitted, Meant, ValuesOf, PlainNames, TableContains, Contains;
    var change := Delete(where);
    var r := s[hit];
    HashIsRefused(d, policy, name, columns, key);
    UnchangedIff(r.rows, change, r.columns, r.pk, full);
    if Meant(d, name) == Some(hit) {
      RestoredSame(d, policy, s, hit, change, full, name, columns, full);
    } else {
      RestoredElsewhere(d, policy, s, hit, change, name, columns, full);
    }
  }

  // ----- From the statement to the undo -----

  datatype Outcome =
    | Refused
    | Unsaved
    | Saved(name: TableRef, rows: seq<Row>)

  predicate Answerable(d: Dialect, s: Server, query: Extractor.Query, executing: Option<string>) {
    var id := Extractor.Reads(d, query, executing);
    id.Some? && id.value in s
  }

  /** `answer` is what the query without its limit lists; its WHERE is that of the statement. */
  ghost predicate Answered(d: Dialect, s: Server, query: Extractor.Query, executing: Option<string>, change: Change,
                           answer: seq<Row>)
    requires Answerable(d, s, query, executing)
  {
    var r := s[Extractor.Reads(d, query, executing).value];
    if query.Matching? then Touched(answer, r.rows, change, r.pk)
    else RowsOf(answer, r.rows, r.pk) && forall k :: k in r.rows ==> r.rows[k] in answer
  }

  /** What comes of a statement. `limited`: the query takes the limit; `c`: the capture of its answer. */
  function OutcomeOf(d: Dialect, s: Server, stmt: Extractor.Statement, executing: Option<string>, limited: bool,
                     c: Capture)
    : Outcome
  {
    var backups := Extractor.Backups(stmt);
    if backups == [] then Unsaved
    else if !limited || !Answerable(d, s, backups[0].query, executing) || !c.Captured? then Refused
    else Saved(Named(d, backups[0].ref, executing), c.rows)
  }

  /** The server after the statement and its undo. */
  function Undone(d: Dialect, policy: Policy, s: Server, hit: TableId, change: Change, o: Outcome,
                  columns: seq<string>): Server
    requires hit in s
  {
    match o
    case Refused => s
    case Unsaved => Changed(s, hit, change)
    case Saved(name, rows) => Restored(d, policy, s, hit, change, name, columns, rows)
  }

  /** A statement on one table that the server accepts, and the change it makes there. */
  ghost predicate Makes(d: Dialect, s: Server, stmt: Extractor.Statement, executing: Option<string>, hit: TableId,
                        change: Change)
  {
    && Extractor.Accepts(d, stmt, executing)
    && Extractor.Hit(d, stmt.from[0].ref, executing) == Some(hit)
    && Hits(s, hit, change)
    && (stmt.Update? <==> change.Update?)
    && (!stmt.filtered ==> forall k :: k in s[hit].rows ==> change.where(s[hit].rows[k]))
  }

  /** The capture before a statement: what its query lists, within the caps. */
  ghost predicate CapturedFor(d: Dialect, s: Server, stmt: Extractor.Statement, executing: Option<string>,
                              change: Change, answer: seq<Row>, rowCap: nat, byteCap: nat, policy: Resolver.Overflow,
                              size: seq<Row> -> nat, c: Capture)
  {
    var backups := Extractor.Backups(stmt);
    && CaptureOf(answer, rowCap, byteCap, policy, size, c)
    && (backups != [] && Answerable(d, s, backups[0].query, executing) ==>
          Answered(d, s, backups[0].query, executing, change, answer))
  }

  /** Rows of its own table are saved. */
  predicate SavesItsOwn(stmt: Extractor.Statement)
    requires |stmt.from| == 1
  {
    !Extractor.Unsaved(stmt) && !Extractor.Misled(stmt)
  }

  /** The capture query of a statement gets an answer: it does not name a table that its FROM part hides, and a query
      for the table called like the alias finds one. */
  predicate FindsItsTable(d: Dialect, s: Server, stmt: Extractor.Statement, executing: Option<string>)
    requires |stmt.from| == 1
  {
    && !Extractor.Unanswered(stmt)
    && (Extractor.Misled(stmt) && Extractor.Backups(stmt) != [] ==>
          var id := Extractor.Hit(d, Extractor.Backups(stmt)[0].ref, executing);
          id.Some? && id.value in s)
  }

  /** Under Abort an accepted statement that has a backup is saved, with all its query lists, exactly when the query
      takes the limit, finds its table, and lists no more than both caps allow. In every other case it is refused
      and the server is as before. Without a backup it runs. */
  lemma SavedIff(d: Dialect, policy: Policy, s: Server, stmt: Extractor.Statement, executing: Option<string>,
                 hit: TableId, change: Change, answer: seq<Row>, rowCap: nat, byteCap: nat, size: seq<Row> -> nat,
                 limited: bool, c: Capture, columns: seq<string>)
    requires Makes(d, s, stmt, executing, hit, change)
    requires CapturedFor(d, s, stmt, executing, change, answer, rowCap, byteCap, Resolver.Abort, size, c)
    ensures var o := OutcomeOf(d, s, stmt, executing, limited, c);
            var end := Undone(d, policy, s, hit, change, o, columns);
            var fits := limited && FindsItsTable(d, s, stmt, executing)
                        && |answer| <= rowCap && size(answer) <= byteCap;
            && (o.Unsaved? <==> Extractor.Unsaved(stmt))
            && (o.Saved? <==> !Extractor.Unsaved(stmt) && fits)
            && (o.Refused? <==> !Extractor.Unsaved(stmt) && !fits)
            && (o.Saved? ==> o.rows == answer)
            && (o.Refused? ==> end == s)
            && (o.Unsaved? ==> end == Changed(s, hit, change))
  {
    assert |stmt.from| == 1;
    hide KeepsKeys, Keyed, Touched, RowsOf, Extractor.Backups, Extractor.Accepts, Extractor.Reads, Restored, Mutate;
    hide Extractor.Unanswered, Extractor.Misled, Extractor.Unsaved, Extractor.Hit;
    Extractor.WhatIsSaved(d, stmt, executing);
    assert answer[..|answer|] == answer;
    ListedTable(d, stmt, executing);
  }

  /** Where a query lists a whole table, that is the table it is named for. */
  lemma ListedTable(d: Dialect, stmt: Extractor.Statement, executing: Option<string>)
    ensures var backups := Extractor.Backups(stmt);
            backups != [] && backups[0].query == Extractor.WholeTable(backups[0].ref) ==>
              Extractor.Reads(d, backups[0].query, executing) == Extractor.Hit(d, backups[0].ref, executing)
  {
    hide Extractor.Backups, Extractor.Hit;
  }

  /** A statement that ran saved nothing, or another table's rows, or all rows it touched. */
  lemma WhatWasSaved(d: Dialect, s: Server, stmt: Extractor.Statement, executing: Option<string>, hit: TableId,
                     change: Change, answer: seq<Row>, rowCap: nat, byteCap: nat, size: seq<Row> -> nat, limited: bool,
                     c: Capture)
    requires Makes(d, s, stmt, executing, hit, change)
    requires CapturedFor(d, s, stmt, executing, change, answer, rowCap, byteCap, Resolver.Abort, size, c)
    ensures var o := OutcomeOf(d, s, stmt, executing, limited, c); var ref := stmt.from[0].ref;
            && (o.Unsaved? <==> Extractor.Unsaved(stmt))
            && (o.Saved? ==> o.rows == answer && |o.rows| <= rowCap && size(o.rows) <= byteCap)
            && (o.Saved? && Extractor.Misled(stmt) ==>
                  o.name.table != hit.table && (o.rows != [] ==> o.rows[0].Keys != {}))
            && (o.Saved? && SavesItsOwn(stmt) ==>
                  o.name == Named(d, ref, executing) && Touched(o.rows, s[hit].rows, change, s[hit].pk))
  {
    assert |stmt.from| == 1;
    hide CaptureOf, KeepsKeys, Keyed, Touched, RowsOf, Extractor.Backups, Extractor.Accepts, Extractor.Reads;
    hide Extractor.Unanswered;
    Extractor.WhatIsSaved(d, stmt, executing);
    AbortKeepsAll(answer, rowCap, byteCap, size, c);
    var o := OutcomeOf(d, s, stmt, executing, limited, c);
    if o.Saved? && SavesItsOwn(stmt) && !stmt.filtered {
      AllAreTouched(s[hit].rows, change, s[hit].pk, answer);
    }
    if o.Saved? && Extractor.Misled(stmt) {
      var r := s[Extractor.Reads(d, Extractor.Backups(stmt)[0].query, executing).value];
      RowsHaveKeys(answer, r.rows, r.pk);
    }
  }

  lemma RowsHaveKeys(rows: seq<Row>, t: Table, pk: string)
    requires RowsOf(rows, t, pk)
    ensures rows != [] ==> rows[0].Keys != {}
  {
    if rows != [] {
      assert rows[0] in rows;
      assert pk in rows[0].Keys;
    }
  }

  lemma AllAreTouched(t: Table, change: Change, pk: string, answer: seq<Row>)
    requires RowsOf(answer, t, pk) && forall k :: k in t ==> t[k] in answer
    requires forall k :: k in t ==> change.where(t[k])
    ensures Touched(answer, t, change, pk)
  {
  }

  lemma AbortKeepsAll(full: seq<Row>, rowCap: nat, byteCap: nat, size: seq<Row> -> nat, c: Capture)
    requires CaptureOf(full, rowCap, byteCap, Resolver.Abort, size, c)
    ensures c.Captured? ==> c.rows == full && !c.truncated && |full| <= rowCap && size(full) <= byteCap
  {
    assert full[..|full|] == full;
  }

  /**
   Every accepted statement on one MySQL table under Abort, run and then undone. It ran without a capture exactly as an
   UPDATE through an alias unlike the table's name; all rows it touched were captured, within the caps, unless
   it was that or the DELETE of all rows through an alias. In the end the table is as before if and only if the
   statement was refused, nothing was changed, or its own rows were captured, no other database than the one in
   use was named, and all rows pass the gate; and in the latter case everything else is as before too.
  */
  lemma AbortUndoIff(policy: Policy, s: Server, stmt: Extractor.Statement, executing: Option<string>, hit: TableId,
                     change: Change, answer: seq<Row>, rowCap: nat, byteCap: nat, size: seq<Row> -> nat, limited: bool,
                     c: Capture, columns: seq<string>)
    requires Makes(MySql, s, stmt, executing, hit, change)
    requires CapturedFor(MySql, s, stmt, executing, change, answer, rowCap, byteCap, Resolver.Abort, size, c)
    requires var o := OutcomeOf(MySql, s, stmt, executing, limited, c);
             o.Saved? ==> PlanColumns(columns, o.rows)
    ensures var o := OutcomeOf(MySql, s, stmt, executing, limited, c);
            var end := Undone(MySql, policy, s, hit, change, o, columns);
            var own := SavesItsOwn(stmt) && NamesItsTable(MySql, stmt.from[0].ref, executing)
                       && o.Saved? && Admitted(MySql, policy, o.name, columns, o.rows);
            && (o.Unsaved? <==> Extractor.Unsaved(stmt))
            && (SavesItsOwn(stmt) && !o.Refused? ==>
                  && o.Saved? && Touched(o.rows, s[hit].rows, change, s[hit].pk)
                  && |o.rows| <= rowCap && size(o.rows) <= byteCap)
            && hit in end
            && (end[hit].rows == s[hit].rows
                <==> o.Refused? || Mutate(s[hit].rows, change) == s[hit].rows || own)
            && (own ==> end == s)
  {
    assert |stmt.from| == 1;
    hide Restored, Mutate, KeepsKeys, Touched, Keyed, Admitted, CapturedFor, Extractor.Accepts, Lists;
    hide Extractor.Unsaved, Extractor.Misled, Extractor.Backups, CaptureOf, ReadsBack;
    var o := OutcomeOf(MySql, s, stmt, executing, limited, c);
    WhatWasSaved(MySql, s, stmt, executing, hit, change, answer, rowCap, byteCap, size, limited, c);
    SavedIff(MySql, policy, s, stmt, executing, hit, change, answer, rowCap, byteCap, size, limited, c, columns);
    if o.Saved? {
      if Extractor.Misled(stmt) {
        PlanHasColumns(columns, o.rows);
        RestoredElsewhere(MySql, policy, s, hit, change, o.name, columns, o.rows);
      } else {
        OwnIsUndoneIff(policy, s, stmt.from[0].ref, executing, hit, change, o.rows, columns);
      }
    }
  }

  /** Under Truncate every capture is taken. If it is not reported as truncated and its rows reach their table again,
      undo gives the table back; if it is, exactly as far as every row beyond the cap was left as it was, or is
      among those before it. */
  lemma TruncateUndoIff(policy: Policy, s: Server, hit: TableId, change: Change, full: seq<Row>, name: TableRef,
                        columns: seq<string>, rowCap: nat, byteCap: nat, size: seq<Row> -> nat, c: Capture)
    requires Sound(s, hit, change, full)
    requires CaptureOf(full, rowCap, byteCap, Resolver.Truncate, size, c)
    requires c.Captured? ==> PlanColumns(columns, c.rows)
    ensures c.Captured? && c.rows <= full && c.bytes == size(c.rows)
    ensures var end := Restored(MySql, policy, s, hit, change, name, columns, c.rows);
            Meant(MySql, name) == Some(hit) && Admitted(MySql, policy, name, columns, c.rows) ==>
              && hit in end
              && (!c.truncated ==> end[hit].rows == s[hit].rows)
              && (c.truncated ==>
                    && |c.rows| == rowCap < |full|
                    && (end[hit].rows == s[hit].rows
                        <==> forall r :: r in full[rowCap..] ==> r in c.rows || LeftAsWas(change, r)))
  {
    assert full[..|full|] == full;
    var rest := full[|c.rows|..];
    assert full == c.rows + rest;
    hide Restored, Admitted, Meant, Sound, Lists;
    forall row | row in c.rows ensures ReadsBack(MySql, row) {
      MySqlReadsBack(row);
    }
    hide ReadsBack;
    UndoIsExactIff(MySql, policy, s, hit, change, full, name, columns, c.rows);
  }

  /** UPDATE users u SET u.name = 'x' WHERE u.id = 1 runs whatever the caps, and what it changed stays changed. */
  lemma AliasedUpdateStays(policy: Policy, s: Server, db: string, hit: TableId, change: Change, limited: bool,
                           c: Capture, columns: seq<string>)
    requires hit in s
    ensures var stmt := Extractor.Update([Extractor.Factor(TableRef(None, "users"), Some("u"))], [["u", "name"]], true);
            var o := OutcomeOf(MySql, s, stmt, Some(db), limited, c);
            && Extractor.Accepts(MySql, stmt, Some(db)) && o == Unsaved
            && Undone(MySql, policy, s, hit, change, o, columns) == Changed(s, hit, change)
  {
    hide Extractor.Accepts, Extractor.Backups;
    Extractor.AliasedUpdateSavesNothing(Some(db));
  }

  /** The case of its own rows. */
  lemma OwnIsUndoneIff(policy: Policy, s: Server, ref: TableRef, executing: Option<string>, hit: TableId,
                       change: Change, rows: seq<Row>, columns: seq<string>)
    requires Extractor.Hit(MySql, ref, executing) == Some(hit) && Sound(s, hit, change, rows)
        && PlanColumns(columns, rows)
    ensures var name := Named(MySql, ref, executing);
            var end := Restored(MySql, policy, s, hit, change, name, columns, rows);
            var own := NamesItsTable(MySql, ref, executing) && Admitted(MySql, policy, name, columns, rows);
            && hit in end
            && (end[hit].rows == s[hit].rows <==> Mutate(s[hit].rows, change) == s[hit].rows || own)
            && (own ==> end == s)
  {
    hide Restored, Mutate, KeepsKeys, Touched, Keyed, Admitted, Lists;
    var r := s[hit];
    var name := Named(MySql, ref, executing);
    SameTableIff(MySql, ref, executing);
    forall row | row in rows ensures ReadsBack(MySql, row) {
      MySqlReadsBack(row);
    }
    hide ReadsBack, Meant, Named, NamesItsTable;
    UndoIsExactIff(MySql, policy, s, hit, change, rows, name, columns, rows);
    UnchangedIff(r.rows, change, r.columns, r.pk, rows);
  }

  lemma MySqlReadsBack(row: Row)
    ensures ReadsBack(MySql, row)
  {
  }

  /** A captured row is written into the table the backup names, if there is one of that shape. */
  lemma OtherTableIsOverwritten(d: Dialect, policy: Policy, s: Server, hit: TableId, change: Change, full: seq<Row>,
                                name: TableRef, columns: seq<string>, rows: seq<Row>, id: TableId)
    requires Sound(s, hit, change, full) && rows <= full && PlanColumns(columns, rows)
    requires Meant(d, name) == Some(id) && id != hit
    requires id in s && s[id].Valid() && s[id].columns == s[hit].columns
    ensures var end := Restored(d, policy, s, hit, change, name, columns, rows);
            && id in end
            && (forall row :: row in rows ==> s[id].pk in row)
            && end[id].rows == if Admitted(d, policy, name, columns, rows)
                               then Overlay(d, s[id].pk, s[id].rows, rows) else s[id].rows
  {
    hide Plan, Replayed, Overlay, Mutate, Keyed, PlanColumns, KeepsKeys, Touched, Admitted, Meant;
    var r := s[hit];
    CapturedAreRows(r.rows, change, r.columns, r.pk, full, rows);
    ReplayPutsRows(d, policy, Changed(s, hit, change), name, columns, rows, id);
  }

  function User(name: string): Row {
    map["id" := Number(1), "name" := Text(name)]
  }

  function Users(name: string): Relation {
    Relation({"id", "name"}, "id", map[Number(1) := User(name)])
  }

  const APP_USERS := TableId("app", "users")
  const OTHER_USERS := TableId("other", "users")
  const QUALIFIED := TableRef(Some("other"), "users")
  const RECORDED := TableRef(Some("app"), "users")
  const COLUMNS := ["id", "name"]

  function TwoDatabases(): Server {
    map[APP_USERS := Users("kept"), OTHER_USERS := Users("deleted")]
  }

  /** DELETE FROM other.users with app as the database in use: undo brings nothing back there, and
      overwrites the row of the same key in app.users. */
  lemma UndoOverwritesAnotherTable(policy: Policy, all: Row -> bool)
    requires all(User("deleted")) && policy.write(RECORDED)
    ensures Extractor.Hit(MySql, QUALIFIED, Some("app")) == Some(OTHER_USERS)
    ensures Sound(TwoDatabases(), OTHER_USERS, Delete(all), [User("deleted")])
    ensures var name := Named(MySql, QUALIFIED, Some("app"));
            var end := Restored(MySql, policy, TwoDatabases(), OTHER_USERS, Delete(all), name, COLUMNS,
                                [User("deleted")]);
            && OTHER_USERS in end && end[OTHER_USERS].rows == map[]
            && APP_USERS in end && end[APP_USERS].rows == map[Number(1) := User("deleted")]
  {
    hide *;
    var s, full := TwoDatabases(), [User("deleted")];
    ExampleIsSound(all);
    ExampleMutated(all);
    ExampleTables();
    ExampleNames();
    ExampleColumns();
    ExampleAdmitted(policy);
    RestoredElsewhere(MySql, policy, s, OTHER_USERS, Delete(all), RECORDED, COLUMNS, full);
    OtherTableIsOverwritten(MySql, policy, s, OTHER_USERS, Delete(all), full, RECORDED, COLUMNS, full, APP_USERS);
    OverlayOne("id", Users("kept").rows, User("deleted"));
  }

  lemma ExampleTables()
    ensures var s := TwoDatabases();
            && APP_USERS in s && OTHER_USERS in s && s[APP_USERS].Valid()
            && s[APP_USERS].columns == s[OTHER_USERS].columns && s[APP_USERS].pk == "id" && "id" in User("deleted")
    ensures Users("kept").rows[User("deleted")["id"] := User("deleted")] == map[Number(1) := User("deleted")]
  {
    OneUser("kept");
    assert APP_USERS.schema[0] == 'a' && OTHER_USERS.schema[0] == 'o';
    assert "id"[0] != "name"[0];
    assert User("deleted")["id"] == Number(1);
    hide Keyed;
  }

  lemma ExampleNames()
    ensures Extractor.Hit(MySql, QUALIFIED, Some("app")) == Some(OTHER_USERS)
    ensures Named(MySql, QUALIFIED, Some("app")) == RECORDED
    ensures Meant(MySql, RECORDED) == Some(APP_USERS) && APP_USERS != OTHER_USERS
  {
    assert APP_USERS.schema[0] == 'a' && OTHER_USERS.schema[0] == 'o';
  }

  lemma ExampleColumns()
    ensures PlanColumns(COLUMNS, [User("deleted")]) && COLUMNS != []
  {
    assert COLUMNS[0] == "id" && COLUMNS[1] == "name";
    assert COLUMNS[0][0] == 'i' && COLUMNS[1][0] == 'n';
    assert User("deleted").Keys == {"id", "name"};
  }

  lemma ExampleAdmitted(policy: Policy)
    requires policy.write(RECORDED)
    ensures Admitted(MySql, policy, RECORDED, COLUMNS, [User("deleted")])
  {
    var vs := [Number(1), Text("deleted")];
    ExampleValues();
    ExampleIsPlain();
    ExampleNamesNoFiles();
    hide RowAdmitted, PlainNames, WithoutFiles, StripOut, Unmistakable, LooksMultiple, User, PrintUpsert, ValuesOf;
    CleanRow(vs);
    RowAdmittedIff(MySql, policy, RECORDED, COLUMNS, vs);
  }

  lemma ExampleValues()
    ensures ValuesOf(User("deleted"), COLUMNS) == [Number(1), Text("deleted")]
  {
    assert COLUMNS[1..][1..] == [] && COLUMNS[0] == "id" && COLUMNS[1..][0] == "name";
    assert "id"[0] != "name"[0];
  }

  lemma ExampleIsPlain()
    ensures PlainNames(RECORDED, COLUMNS) && AllValuesFree(Opener, [Number(1), Text("deleted")])
    ensures Unmistakable(RECORDED, COLUMNS, [Number(1), Text("deleted")])
  {
    forall m: Mark
      ensures NamesFree(m, RECORDED, COLUMNS) && AllValuesFree(m, [Number(1), Text("deleted")])
    {
      Word(m, "app");
      Word(m, "users");
      Word(m, "id");
      Word(m, "name");
      Word(m, "deleted");
    }
  }

  lemma ExampleNamesNoFiles()
    ensures WithoutFiles(RECORDED, COLUMNS, [Number(1), Text("deleted")])
  {
    hide Contains;
    assert NoPair("app") && NoPair("users") && NoPair("id") && NoPair("name") && NoPair("deleted");
    forall phrase | phrase in FILE_PHRASES
      ensures WithoutPhrase(RECORDED, COLUMNS, [Number(1), Text("deleted")], phrase)
    {
      NoPairNoPhrase("app", phrase);
      NoPairNoPhrase("users", phrase);
      NoPairNoPhrase("id", phrase);
      NoPairNoPhrase("name", phrase);
      NoPairNoPhrase("deleted", phrase);
    }
  }

  lemma ExampleMutated(all: Row -> bool)
    requires all(User("deleted"))
    ensures TwoDatabases()[OTHER_USERS] == Users("deleted")
    ensures TwoDatabases()[APP_USERS] == Users("kept")
    ensures Mutate(Users("deleted").rows, Delete(all)) == map[]
  {
    assert APP_USERS.schema[0] == 'a' && OTHER_USERS.schema[0] == 'o';
  }

  lemma ExampleIsSound(all: Row -> bool)
    requires all(User("deleted"))
    ensures Sound(TwoDatabases(), OTHER_USERS, Delete(all), [User("deleted")])
  {
    ExampleMutated(all);
    OneUser("deleted");
    ExampleTouched(all);
    hide Touched, Keyed;
  }

  lemma ExampleTouched(all: Row -> bool)
    requires all(User("deleted"))
    ensures Touched([User("deleted")], Users("deleted").rows, Delete(all), "id")
  {
    assert "id"[0] != "name"[0];
  }

  lemma OneUser(name: string)
    ensures Users(name).Valid()
  {
  }

  lemma OverlayOne(pk: string, t: Table, row: Row)
    requires pk in row
    ensures Overlay(MySql, pk, t, [row]) == t[row[pk] := row]
  {
    assert [row][..0] == [];
    assert Stored(MySql, row) == row;
  }

  // ----- SQLite -----

  function Backslashes(s: string): nat {
    if s == "" then 0 else (if s[0] == '\\' then 1 else 0) + Backslashes(s[1..])
  }

  lemma {:induction false} BackslashesDouble(s: string)
    ensures Backslashes(Replace(s, '\\', "\\\\")) == 2 * Backslashes(s)
    ensures Backslashes(s) == 0 <==> '\\' !in s
    ensures '\\' !in s ==> Replace(s, '\\', "\\\\") == s
    decreases |s|
  {
    if s != "" {
      BackslashesDouble(s[1..]);
      var more := Replace(s[1..], '\\', "\\\\");
      assert s == [s[0]] + s[1..];
      if s[0] == '\\' {
        assert ("\\\\" + more)[1..] == "\\" + more && ("\\" + more)[1..] == more;
      } else {
        assert ([s[0]] + more)[1..] == more;
      }
    }
  }

  predicate HasBackslash(v: Value) {
    v.Text? && '\\' in v.s
  }

  lemma ReadsBackIff(d: Dialect, v: Value)
    ensures AsRead(d, v) == v <==> d == MySql || !HasBackslash(v)
  {
    if v.Text? {
      BackslashesDouble(v.s);
    }
  }

  /** A key of an overlay holds what it held before, or some row written over it. */
  lemma {:induction false} OverlayHolds(d: Dialect, pk: string, t: Table, rows: seq<Row>, k: Value) returns (r: Row)
    requires forall r :: r in rows ==> pk in r
    requires k in Overlay(d, pk, t, rows)
    ensures (k in t && Overlay(d, pk, t, rows)[k] == t[k]) || (r in rows && Overlay(d, pk, t, rows)[k] == Stored(d, r))
    decreases |rows|
  {
    r := map[];
    if rows != [] {
      hide AsRead, Stored;
      var n := |rows| - 1;
      assert rows == rows[..n] + [rows[n]];
      if k in Overlay(d, pk, t, rows[..n]) {
        r := OverlayHolds(d, pk, t, rows[..n], k);
      }
      if k == AsRead(d, rows[n][pk]) {
        r := rows[n];
      }
    }
  }

  /** A restored DELETE gives every deleted row back from some captured one. */
  lemma SomeRowBecame(pk: string, names: set<string>, t: Table, where: Row -> bool, full: seq<Row>, r: Row)
    returns (j: Row)
    requires Keyed(t, names, pk) && Touched(full, t, Delete(where), pk)
    requires Overlay(Sqlite, pk, Mutate(t, Delete(where)), full) == t
    requires r in full
    ensures j in full && Stored(Sqlite, j) == r
  {
    hide AsRead, Stored;
    j := OverlayHolds(Sqlite, pk, Mutate(t, Delete(where)), full, r[pk]);
  }

  lemma {:induction false} NoBackslashLeft(pk: string, names: set<string>, t: Table, where: Row -> bool, full: seq<Row>,
                                           r: Row, column: string)
    requires Keyed(t, names, pk) && Touched(full, t, Delete(where), pk)
    requires Overlay(Sqlite, pk, Mutate(t, Delete(where)), full) == t
    requires r in full && column in r && r[column].Text?
    ensures Backslashes(r[column].s) == 0
    decreases Backslashes(r[column].s)
  {
    hide Overlay, Backslashes;
    if Backslashes(r[column].s) != 0 {
      var j := SomeRowBecame(pk, names, t, where, full, r);
      assert column in j && r[column] == AsRead(Sqlite, j[column]);
      BackslashesDouble(j[column].s);
      NoBackslashLeft(pk, names, t, where, full, j, column);
    }
  }

  /** On SQLite a fully captured DELETE is undone exactly when nothing was deleted, or the table is in the
      database in use, all deleted rows pass the gate and no deleted text holds a backslash. */
  lemma SqliteDeleteUndoIff(policy: Policy, s: Server, ref: TableRef, executing: Option<string>, hit: TableId,
                            where: Row -> bool, full: seq<Row>, columns: seq<string>)
    requires Extractor.Hit(Sqlite, ref, executing) == Some(hit)
    requires Sound(s, hit, Delete(where), full) && PlanColumns(columns, full)
    ensures var name := Named(Sqlite, ref, executing);
            var end := Restored(Sqlite, policy, s, hit, Delete(where), name, columns, full);
            && hit in end
            && (end[hit].rows == s[hit].rows
                <==> full == [] || (&& NamesItsTable(Sqlite, ref, executing)
                                    && Admitted(Sqlite, policy, name, columns, full)
                                    && forall r: Row, c: string :: r in full && c in r ==> !HasBackslash(r[c])))
  {
    hide Restored, Mutate, KeepsKeys, Keyed, Lists, Admitted;
    var change, name := Delete(where), Named(Sqlite, ref, executing);
    var r := s[hit];
    SameTableIff(Sqlite, ref, executing);
    hide Meant, NamesItsTable, Named, HasBackslash;
    UnchangedIff(r.rows, change, r.columns, r.pk, full);
    assert full != [] ==> full[0] in full;
    if Meant(Sqlite, name) == Some(hit) {
      RestoredSame(Sqlite, policy, s, hit, change, full, name, columns, full);
      SqliteOverlayIff(r.columns, r.pk, r.rows, where, full);
    } else {
      RowsHaveKeys(full, r.rows, r.pk);
      PlanHasColumns(columns, full);
      RestoredElsewhere(Sqlite, policy, s, hit, change, name, columns, full);
    }
  }

  lemma SqliteOverlayIff(names: set<string>, pk: string, t: Table, where: Row -> bool, full: seq<Row>)
    requires Keyed(t, names, pk) && Touched(full, t, Delete(where), pk)
    ensures (forall r :: r in full ==> pk in r)
         && (Overlay(Sqlite, pk, Mutate(t, Delete(where)), full) == t
             <==> forall r: Row, c: string :: r in full && c in r ==> !HasBackslash(r[c]))
  {
    hide Overlay, AsRead, MadeGood;
    var change := Delete(where);
    if forall r: Row, c: string :: r in full && c in r ==> !HasBackslash(r[c]) {
      forall r | r in full ensures ReadsBack(Sqlite, r) {
        forall c | c in r ensures AsRead(Sqlite, r[c]) == r[c] {
          ReadsBackIff(Sqlite, r[c]);
        }
      }
      MutatedIsKeyed(t, change, names, pk);
      RestoreIsExactIff(Sqlite, names, pk, t, Mutate(t, change), full);
      MadeGoodIff(t, change, names, pk, full, full);
    }
    if Overlay(Sqlite, pk, Mutate(t, change), full) == t {
      forall r: Row, c: string | r in full && c in r ensures !HasBackslash(r[c]) {
        if r[c].Text? {
          NoBackslashLeft(pk, names, t, where, full, r, c);
          BackslashesDouble(r[c].s);
        }
      }
    }
  }
}
