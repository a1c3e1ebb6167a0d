/**
 Which rows are saved before an UPDATE or DELETE (src/backup/extractor.rs), and which of these queries a server
 answers. The code compares table names letter by letter but for their case; the server is taken to compare
 names as they are.
*/
module Extractor {
  import opened Wrappers
  import opened SqlText
  import opened UpsertText
  import opened RenamePlan

  /** A table in the FROM part. */
  datatype Factor = Factor(ref: TableRef, alias: Option<string>) {
    /** The name by which the rest of the statement knows the table. */
    function Exposed(): string {
      alias.GetOr(ref.table)
    }
  }

  /** What the choice depends on. `targets`: the parts of each assigned column's name; `explicit`: the tables a
      DELETE names before FROM; `filtered`: there is a WHERE. */
  datatype Statement =
    | Update(from: seq<Factor>, targets: seq<seq<string>>, filtered: bool)
    | Delete(from: seq<Factor>, explicit: seq<TableRef>, filtered: bool)

  datatype Query =
    | WholeTable(ref: TableRef)
    | Matching(owner: string, from: seq<Factor>)

  /** The name under which rows are saved, and the query that lists them. */
  datatype BackupTable = BackupTable(ref: TableRef, query: Query)

  predicate EqIgnoreCase(a: string, b: string) {
    |a| == |b| && forall i :: 0 <= i < |a| ==> LowerChar(a[i]) == LowerChar(b[i])
  }

  // ----- UPDATE -----

  /** Some column is assigned through a table name. */
  predicate Qualified(targets: seq<seq<string>>) {
    exists t :: t in targets && |t| == 2
  }

  predicate NamedIn(table: string, targets: seq<seq<string>>) {
    exists t :: t in targets && |t| == 2 && EqIgnoreCase(table, t[0])
  }

  function NamedTables(from: seq<Factor>, targets: seq<seq<string>>): seq<TableRef> {
    if from == [] then []
    else NamedTables(from[..|from| - 1], targets)
         + if NamedIn(from[|from| - 1].ref.table, targets) then [from[|from| - 1].ref] else []
  }

  function UpdatedTables(from: seq<Factor>, targets: seq<seq<string>>): seq<TableRef> {
    if Qualified(targets) then NamedTables(from, targets)
    else if from == [] then [TableRef(None, "")]
    else [from[0].ref]
  }

  function UpdateBackup(from: seq<Factor>, filtered: bool, ref: TableRef): BackupTable {
    BackupTable(ref, if |from| == 1 && !filtered then WholeTable(ref) else Matching(ref.table, from))
  }

  function UpdateBackups(from: seq<Factor>, filtered: bool, tables: seq<TableRef>): seq<BackupTable> {
    seq(|tables|, i requires 0 <= i < |tables| => UpdateBackup(from, filtered, tables[i]))
  }

  method Qualifiers(targets: seq<seq<string>>) returns (qualified: seq<string>)
    ensures forall q :: q in qualified <==> exists t :: t in targets && |t| == 2 && t[0] == q
  {
    qualified := [];
    for i := 0 to |targets|
      invariant forall q :: q in qualified <==> exists t :: t in targets[..i] && |t| == 2 && t[0] == q
    {
      assert targets[..i + 1] == targets[..i] + [targets[i]];
      if |targets[i]| == 2 && targets[i][0] !in qualified {
        qualified := qualified + [targets[i][0]];
      }
    }
    assert targets[..|targets|] == targets;
  }

  method UpdateSpec(from: seq<Factor>, targets: seq<seq<string>>, filtered: bool) returns (backups: seq<BackupTable>)
    ensures backups == UpdateBackups(from, filtered, UpdatedTables(from, targets))
  {
    var qualified := Qualifiers(targets);
    var tables: seq<TableRef> := [];
    if qualified == [] {
      assert !Qualified(targets) by {
        if t :| t in targets && |t| == 2 {
          assert t[0] in qualified;
        }
      }
      tables := [if from == [] then TableRef(None, "") else from[0].ref];
    } else {
      assert qualified[0] in qualified;
      for i := 0 to |from|
        invariant tables == NamedTables(from[..i], targets)
      {
        assert from[..i + 1][..i] == from[..i];
        var named := exists q :: q in qualified && EqIgnoreCase(from[i].ref.table, q);
        if named {
          tables := tables + [from[i].ref];
        }
      }
      assert from[..|from|] == from;
    }
    backups := [];
    for i := 0 to |tables|
      invariant backups == UpdateBackups(from, filtered, tables[..i])
    {
      backups := backups + [UpdateBackup(from, filtered, tables[i])];
    }
    assert tables[..|tables|] == tables;
  }

  // ----- DELETE -----

  /** The first table of that name. */
  function Called(from: seq<Factor>, table: string): Option<Factor> {
    if from == [] then None
    else if EqIgnoreCase(from[0].ref.table, table) then Some(from[0])
    else Called(from[1..], table)
  }

  function DeletedTables(from: seq<Factor>, explicit: seq<TableRef>): seq<TableRef> {
    if explicit != [] then
      seq(|explicit|, i requires 0 <= i < |explicit| =>
        match Called(from, explicit[i].table)
        case Some(f) => TableRef(f.ref.database, explicit[i].table)
        case None => explicit[i])
    else seq(|from|, i requires 0 <= i < |from| => from[i].ref)
  }

  /** Aliases are left out of the FROM part. */
  function Bare(from: seq<Factor>): seq<Factor> {
    seq(|from|, i requires 0 <= i < |from| => Factor(from[i].ref, None))
  }

  function DeleteBackup(from: seq<Factor>, filtered: bool, ref: TableRef): BackupTable {
    if |from| == 1 && !filtered then BackupTable(ref, WholeTable(ref))
    else
      match Called(from, ref.table)
      case Some(f) => BackupTable(ref, Matching(f.Exposed(), Bare(from)))
      case None => BackupTable(ref, Matching(ref.table, Bare(from)))
  }

  function DeleteBackups(from: seq<Factor>, filtered: bool, tables: seq<TableRef>): seq<BackupTable> {
    seq(|tables|, i requires 0 <= i < |tables| => DeleteBackup(from, filtered, tables[i]))
  }

  method Find(from: seq<Factor>, table: string) returns (found: Option<Factor>)
    ensures found == Called(from, table)
  {
    for i := 0 to |from|
      invariant Called(from, table) == Called(from[i..], table)
    {
      if EqIgnoreCase(from[i].ref.table, table) {
        return Some(from[i]);
      }
    }
    return None;
  }

  method DeleteSpec(from: seq<Factor>, explicit: seq<TableRef>, filtered: bool) returns (backups: seq<BackupTable>)
    ensures backups == if from == [] then [] else DeleteBackups(from, filtered, DeletedTables(from, explicit))
  {
    var tables: seq<TableRef> := [];
    if explicit != [] {
      for i := 0 to |explicit|
        invariant |tables| == i && tables == DeletedTables(from, explicit)[..i]
      {
        var found := Find(from, explicit[i].table);
        tables := tables + [if found.Some? then TableRef(found.value.ref.database, explicit[i].table) else explicit[i]];
      }
    } else {
      for i := 0 to |from|
        invariant |tables| == i && tables == DeletedTables(from, explicit)[..i]
      {
        tables := tables + [from[i].ref];
      }
    }
    if from == [] {
      return [];
    }
    backups := [];
    for i := 0 to |tables|
      invariant backups == DeleteBackups(from, filtered, tables[..i])
    {
      var backup := BackupTable(tables[i], WholeTable(tables[i]));
      if |from| != 1 || filtered {
        var found := Find(from, tables[i].table);
        var owner := if found.Some? then found.value.Exposed() else tables[i].table;
        backup := BackupTable(tables[i], Matching(owner, Bare(from)));
      }
      backups := backups + [backup];
    }
    assert tables[..|tables|] == tables;
  }

  /** The backups taken before a statement; none at all is passed over, and the statement runs. */
  function Backups(stmt: Statement): seq<BackupTable> {
    match stmt
    case Update(from, targets, filtered) => UpdateBackups(from, filtered, UpdatedTables(from, targets))
    case Delete(from, explicit, filtered) =>
      if from == [] then [] else DeleteBackups(from, filtered, DeletedTables(from, explicit))
  }

  // ----- The server -----

  /** The table a name reaches: an unqualified one means the session's database, or SQLite's main. */
  function Hit(d: Dialect, ref: TableRef, executing: Option<string>): Option<TableId> {
    Resolve(ref, if d == MySql then executing else Some("main"))
  }

  /** The table a name stands for. */
  function Owning(owner: string, from: seq<Factor>): Option<TableRef> {
    if from == [] then None
    else if from[0].Exposed() == owner then Some(from[0].ref)
    else Owning(owner, from[1..])
  }

  /** The table whose rows a query lists; none if the server refuses the query for its names. */
  function Reads(d: Dialect, query: Query, executing: Option<string>): Option<TableId> {
    match query
    case WholeTable(ref) => Hit(d, ref, executing)
    case Matching(owner, from) =>
      match Owning(owner, from)
      case None => None
      case Some(ref) => Hit(d, ref, executing)
  }

  /** A column may be assigned by its bare name, or on MySQL through the exposed name of the table, which
      may have the table's database before it. */
  predicate Assignable(d: Dialect, f: Factor, executing: Option<string>, target: seq<string>) {
    || |target| == 1
    || (d == MySql && |target| == 2 && target[0] == f.Exposed())
    || (d == MySql && |target| == 3 && target[1] == f.Exposed()
        && Hit(d, f.ref, executing) == Some(TableId(target[0], f.ref.table)))
  }

  /** A DELETE on MySQL may name its table by the alias, or without one by any name of that table. */
  predicate Deletable(d: Dialect, f: Factor, executing: Option<string>, target: TableRef) {
    && d == MySql
    && if f.alias.Some? then target == TableRef(None, f.alias.value)
       else Hit(d, target, executing) == Hit(d, f.ref, executing)
  }

  /** A statement on one table that the server does not refuse for its names. */
  predicate Accepts(d: Dialect, stmt: Statement, executing: Option<string>) {
    && |stmt.from| == 1
    && Hit(d, stmt.from[0].ref, executing).Some?
    && match stmt
       case Update(from, targets, _) =>
         targets != [] && forall t :: t in targets ==> Assignable(d, from[0], executing, t)
       case Delete(from, explicit, _) =>
         explicit == [] || (|explicit| == 1 && Deletable(d, from[0], executing, explicit[0]))
  }

  // ----- What is saved -----

  /** No rows are saved: a column is assigned through an alias unlike the table's name. */
  predicate Unsaved(stmt: Statement)
    requires |stmt.from| == 1
  {
    var f := stmt.from[0];
    stmt.Update? && Qualified(stmt.targets) && !EqIgnoreCase(f.ref.table, f.Exposed())
  }

  /** The rows of another table are saved: all rows are deleted through an alias. */
  predicate Misled(stmt: Statement)
    requires |stmt.from| == 1
  {
    var f := stmt.from[0];
    stmt.Delete? && stmt.explicit != [] && !stmt.filtered && f.Exposed() != f.ref.table
  }

  /** The query names a table its FROM part does not expose. */
  predicate Unanswered(stmt: Statement)
    requires |stmt.from| == 1
  {
    var f := stmt.from[0];
    stmt.filtered && f.Exposed() != f.ref.table && !Unsaved(stmt)
  }

  lemma UpdateNames(d: Dialect, f: Factor, executing: Option<string>, targets: seq<seq<string>>)
    requires forall t :: t in targets ==> Assignable(d, f, executing, t)
    ensures NamedIn(f.ref.table, targets) <==> Qualified(targets) && EqIgnoreCase(f.ref.table, f.Exposed())
    ensures NamedTables([f], targets) == if NamedIn(f.ref.table, targets) then [f.ref] else []
  {
    assert [f][..0] == [];
  }

  lemma UpdateSaves(d: Dialect, stmt: Statement, executing: Option<string>)
    requires Accepts(d, stmt, executing) && stmt.Update?
    ensures Backups(stmt) == if Unsaved(stmt) then [] else [UpdateBackup(stmt.from, stmt.filtered, stmt.from[0].ref)]
  {
    var f := stmt.from[0];
    UpdateNames(d, f, executing, stmt.targets);
    assert stmt.from == [f];
  }

  lemma DeleteSaves(d: Dialect, stmt: Statement, executing: Option<string>)
    requires Accepts(d, stmt, executing) && stmt.Delete?
    ensures |Backups(stmt)| == 1
    ensures stmt.from[0].Exposed() == stmt.from[0].ref.table ==>
              Backups(stmt) == [DeleteBackup(stmt.from, stmt.filtered, stmt.from[0].ref)]
    ensures stmt.explicit == [] ==> Backups(stmt) == [DeleteBackup(stmt.from, stmt.filtered, stmt.from[0].ref)]
    ensures stmt.explicit != [] && stmt.from[0].alias.Some? ==> Backups(stmt)[0].ref.table == stmt.from[0].Exposed()
    ensures var b := Backups(stmt)[0];
            b.query == if stmt.filtered then Matching(stmt.from[0].Exposed(), Bare(stmt.from)) else WholeTable(b.ref)
  {
    hide EqIgnoreCase;
    var f := stmt.from[0];
    assert stmt.from == [f];
    EqItself(f.ref.table);
    CalledAlone(f, f.ref.table);
    if stmt.explicit != [] {
      CalledAlone(f, stmt.explicit[0].table);
    }
  }

  lemma CalledAlone(f: Factor, table: string)
    ensures Called([f], table) == if EqIgnoreCase(f.ref.table, table) then Some(f) else None
  {
    assert [f][1..] == [];
  }

  lemma OwningAlone(f: Factor, owner: string)
    ensures Owning(owner, [f]) == if f.Exposed() == owner then Some(f.ref) else None
  {
    assert [f][1..] == [];
  }

  lemma EqItself(s: string)
    ensures EqIgnoreCase(s, s)
  {
  }

  /**
   For every statement on one table that the server accepts: nothing is saved exactly for an UPDATE through an
   alias unlike the table's name. Otherwise one query is asked. An unfiltered DELETE through an alias asks for
   all rows of the table called like the alias. All others save under the name of the table they change,
   and the query lists rows of that table, unless the server refuses it.
  */
  lemma WhatIsSaved(d: Dialect, stmt: Statement, executing: Option<string>)
    requires Accepts(d, stmt, executing)
    ensures var f, backups := stmt.from[0], Backups(stmt);
            && (backups == [] <==> Unsaved(stmt))
            && (backups != [] ==>
                  var b := backups[0]; var listed := Reads(d, b.query, executing);
                  && |backups| == 1
                  && (Misled(stmt) ==> b.query == WholeTable(b.ref) && b.ref.table == f.Exposed() != f.ref.table)
                  && (!Misled(stmt) && !Unanswered(stmt) ==> b.ref == f.ref && listed == Hit(d, f.ref, executing))
                  && (Unanswered(stmt) ==> listed.None?)
                  && (b.query.Matching? <==> stmt.filtered))
  {
    hide EqIgnoreCase, Qualified, NamedIn;
    var f := stmt.from[0];
    assert stmt.from == [f];
    if stmt.Update? {
      UpdateSaves(d, stmt, executing);
      OwningAlone(f, f.ref.table);
    } else {
      DeleteSaves(d, stmt, executing);
      assert Bare([f]) == [Factor(f.ref, None)];
      OwningAlone(Factor(f.ref, None), f.Exposed());
    }
  }

  /** Which of the three ways to go wrong a statement takes, from its alias alone. */
  lemma SavedRightIff(d: Dialect, stmt: Statement, executing: Option<string>)
    requires Accepts(d, stmt, executing)
    ensures var f := stmt.from[0];
            (|Backups(stmt)| == 1 && Reads(d, Backups(stmt)[0].query, executing) == Hit(d, f.ref, executing)
             && Backups(stmt)[0].ref == f.ref)
            <==> || f.Exposed() == f.ref.table
                 || (!stmt.filtered
                     && if stmt.Update? then !Qualified(stmt.targets) || EqIgnoreCase(f.ref.table, f.Exposed())
                        else stmt.explicit == [])
  {
    EqItself(stmt.from[0].ref.table);
    WhatIsSaved(d, stmt, executing);
    hide Backups, Reads, Hit, EqIgnoreCase, Qualified;
  }

  /** On SQLite every accepted statement saves rows of its own table, unless the query is refused. */
  lemma SqliteSavesItsOwn(stmt: Statement, executing: Option<string>)
    requires Accepts(Sqlite, stmt, executing)
    ensures !Unsaved(stmt) && !Misled(stmt)
  {
  }

  /** A column may be assigned through database and alias, which says nothing about what is saved. */
  lemma DatabaseAndAlias(d: Dialect, db: string, table: string, alias: string, column: string, filtered: bool)
    ensures var stmt := Update([Factor(TableRef(None, table), Some(alias))], [[db, alias, column]], filtered);
            && (Accepts(d, stmt, Some(db)) <==> d == MySql)
            && !Unsaved(stmt) && Backups(stmt)[0].ref == TableRef(None, table)
    ensures Accepts(d, Update([Factor(TableRef(None, table), Some(alias))], [[column]], filtered), Some(db))
  {
    var f := Factor(TableRef(None, table), Some(alias));
    var targets, bare := [[db, alias, column]], [[column]];
    assert targets[0] in targets && bare[0] in bare;
    assert forall t :: t in targets ==> t == targets[0];
    assert forall t :: t in bare ==> t == bare[0];
  }

  // ----- UPDATEs of several tables -----

  /** The places of FROM in `picks` are those of `refs`, in the order of FROM. */
  ghost predicate PickedFrom(from: seq<Factor>, picks: seq<nat>, refs: seq<TableRef>) {
    && |picks| == |refs|
    && (forall m :: 0 <= m < |picks| ==> picks[m] < |from| && refs[m] == from[picks[m]].ref)
    && (forall k, m :: 0 <= k < m < |picks| ==> picks[k] < picks[m])
  }

  lemma {:induction false} NamedTablesArePicked(from: seq<Factor>, targets: seq<seq<string>>) returns (picks: seq<nat>)
    ensures PickedFrom(from, picks, NamedTables(from, targets))
    ensures forall i :: 0 <= i < |from| ==> (i in picks <==> NamedIn(from[i].ref.table, targets))
    decreases |from|
  {
    hide NamedIn;
    picks := [];
    if from != [] {
      var n := |from| - 1;
      picks := NamedTablesArePicked(from[..n], targets);
      assert forall i :: 0 <= i < n ==> from[..n][i] == from[i];
      if NamedIn(from[n].ref.table, targets) {
        picks := picks + [n];
      }
    }
  }

  /** Each place of FROM is kept or left by itself, and the order is that of FROM. */
  lemma NamedTablesAre(from: seq<Factor>, targets: seq<seq<string>>) returns (picks: seq<nat>)
    ensures PickedFrom(from, picks, NamedTables(from, targets))
    ensures forall i :: 0 <= i < |from| ==>
              (i in picks <==> exists t :: t in targets && |t| == 2 && EqIgnoreCase(from[i].ref.table, t[0]))
  {
    hide EqIgnoreCase, NamedTables, PickedFrom;
    picks := NamedTablesArePicked(from, targets);
  }

  /** `owners[j]` is the place in FROM of the table whose column `targets[j]` is. A target may leave that open, or say
      it by the name the table is exposed by. */
  ghost predicate Assigns(from: seq<Factor>, targets: seq<seq<string>>, owners: seq<nat>) {
    && |owners| == |targets| && targets != []
    && forall j :: 0 <= j < |targets| ==>
         && owners[j] < |from| && 1 <= |targets[j]| <= 2
         && (|targets[j]| == 2 ==> targets[j][0] == from[owners[j]].Exposed())
  }

  ghost predicate SavesUnder(from: seq<Factor>, targets: seq<seq<string>>, filtered: bool, ref: TableRef) {
    exists b :: b in Backups(Update(from, targets, filtered)) && b.ref == ref
  }

  /** For every UPDATE: a table of FROM that some target names is saved if its own name is among the names that targets
      use, in whatever case, and only then unless another place of FROM has the same table. When no target names a
      table, only the first is saved, whichever the columns belong to. */
  lemma UpdateSavesIff(from: seq<Factor>, targets: seq<seq<string>>, filtered: bool, owners: seq<nat>, j: nat)
    requires Assigns(from, targets, owners) && j < |targets|
    requires forall i, k :: 0 <= i < k < |from| ==> from[i].ref != from[k].ref
    ensures SavesUnder(from, targets, filtered, from[owners[j]].ref)
       <==> if exists t :: t in targets && |t| == 2
            then exists t :: t in targets && |t| == 2 && EqIgnoreCase(from[owners[j]].ref.table, t[0])
            else owners[j] == 0
  {
    var ref := from[owners[j]].ref;
    var tables := UpdatedTables(from, targets);
    BackupsNameTables(from, targets, filtered, ref);
    if Qualified(targets) {
      var picks := NamedTablesAre(from, targets);
      hide NamedTables, EqIgnoreCase;
      if ref in tables {
        var m :| 0 <= m < |tables| && tables[m] == ref;
        assert picks[m] == owners[j];
        assert picks[m] in picks;
      }
      if owners[j] in picks {
        var m :| 0 <= m < |picks| && picks[m] == owners[j];
        assert tables[m] == ref;
      }
    }
  }

  lemma BackupsNameTables(from: seq<Factor>, targets: seq<seq<string>>, filtered: bool, ref: TableRef)
    ensures SavesUnder(from, targets, filtered, ref) <==> ref in UpdatedTables(from, targets)
  {
    hide UpdatedTables;
    var tables := UpdatedTables(from, targets);
    var backups := UpdateBackups(from, filtered, tables);
    assert forall i :: 0 <= i < |tables| ==> backups[i] in backups && backups[i].ref == tables[i];
  }

  /** UPDATE a JOIN b SET a.x = 1, y = 2, with y a column of b: b is changed and not saved. */
  lemma BareColumnIsNotSaved()
    ensures var a, b := Factor(TableRef(None, "a"), None), Factor(TableRef(None, "b"), None);
            && Assigns([a, b], [["a", "x"], ["y"]], [0, 1])
            && !SavesUnder([a, b], [["a", "x"], ["y"]], true, b.ref)
  {
    var a, b := Factor(TableRef(None, "a"), None), Factor(TableRef(None, "b"), None);
    var targets := [["a", "x"], ["y"]];
    assert a.ref.table[0] == 'a' && b.ref.table[0] == 'b';
    assert targets[0] in targets && targets[0][0] == "a";
    forall t | t in targets && |t| == 2 ensures !EqIgnoreCase("b", t[0]) {
      assert t == targets[0];
    }
    UpdateSavesIff([a, b], targets, true, [0, 1], 1);
  }

  /** UPDATE users u SET u.name = 'x' WHERE u.id = 1 runs and nothing is saved. */
  lemma AliasedUpdateSavesNothing(executing: Option<string>)
    requires executing.Some?
    ensures var stmt := Update([Factor(TableRef(None, "users"), Some("u"))], [["u", "name"]], true);
            Accepts(MySql, stmt, executing) && Backups(stmt) == []
  {
    var f, targets := Factor(TableRef(None, "users"), Some("u")), [["u", "name"]];
    assert targets[0] in targets;
    assert |f.Exposed()| == 1;
    WhatIsSaved(MySql, Update([f], targets, true), executing);
  }

  /** DELETE u FROM users u runs after the rows of the table u were saved, if there is one. */
  lemma AliasedDeleteSavesAnother(db: string)
    ensures var stmt := Delete([Factor(TableRef(None, "users"), Some("u"))], [TableRef(None, "u")], false);
            && Accepts(MySql, stmt, Some(db))
            && Backups(stmt) == [BackupTable(TableRef(None, "u"), WholeTable(TableRef(None, "u")))]
  {
    var f := Factor(TableRef(None, "users"), Some("u"));
    assert |f.ref.table| == 5 && |f.Exposed()| == 1;
    assert Called([f][1..], "u") == None;
    var stmt := Delete([f], [TableRef(None, "u")], false);
    assert DeletedTables([f], stmt.explicit)[0] == TableRef(None, "u");
  }
}
