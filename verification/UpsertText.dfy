/**
 The statements of a restore plan (src/backup/restore.rs): how they are printed, and how a server reads
 them back.
*/
module UpsertText {
  import opened Wrappers
  import opened SqlText

  datatype Dialect = MySql | Sqlite

  datatype Value = Null | Number(n: int) | Text(s: string)

  /** What a server makes of an upsert: `sets` pairs a column with the inserted column it takes over. */
  datatype Upsert = Upsert(database: Option<string>, table: string, columns: seq<string>, values: seq<Value>,
                           sets: seq<(string, string)>)

  // ----- Printing -----

  function Digits(n: nat): string {
    if n < 10 then [('0' as int + n) as char] else Digits(n / 10) + [('0' as int + n % 10) as char]
  }

  function EscapeValue(v: Value): string {
    match v
    case Null => "NULL"
    case Number(n) => if n < 0 then "-" + Digits(-n) else Digits(n)
    case Text(s) => EscapeString(s)
  }

  function PrintTable(database: Option<string>, table: string): string {
    if database.Some? then QuoteIdent(database.value) + "." + QuoteIdent(table) else QuoteIdent(table)
  }

  function PrintIdents(columns: seq<string>): string {
    if columns == [] then ""
    else if |columns| == 1 then QuoteIdent(columns[0])
    else QuoteIdent(columns[0]) + ", " + PrintIdents(columns[1..])
  }

  function PrintValues(values: seq<Value>): string {
    if values == [] then ""
    else if |values| == 1 then EscapeValue(values[0])
    else EscapeValue(values[0]) + ", " + PrintValues(values[1..])
  }

  function PrintSet(d: Dialect, column: string): string {
    if d == MySql then QuoteIdent(column) + " = VALUES(" + QuoteIdent(column) + ")"
    else QuoteIdent(column) + " = excluded." + QuoteIdent(column)
  }

  function PrintSets(d: Dialect, columns: seq<string>): string {
    if columns == [] then ""
    else if |columns| == 1 then PrintSet(d, columns[0])
    else PrintSet(d, columns[0]) + ", " + PrintSets(d, columns[1..])
  }

  function ConflictClause(d: Dialect): string {
    if d == MySql then ") ON DUPLICATE KEY UPDATE " else ") ON CONFLICT DO UPDATE SET "
  }

  function PrintUpsert(d: Dialect, database: Option<string>, table: string, columns: seq<string>,
                       values: seq<Value>): string
  {
    "INSERT INTO " + (PrintTable(database, table) + (" (" + (PrintIdents(columns) + (") VALUES ("
    + (PrintValues(values) + (ConflictClause(d) + (PrintSets(d, columns) + ";")))))))
  }

  // ----- Reading -----

  function Expect(token: string, s: string): Option<string> {
    if token <= s then Some(s[|token|..]) else None
  }

  predicate IsDigit(c: char) {
    '0' <= c <= '9'
  }

  /** Reads digits off the front, the earlier ones being worth `high`. */
  function ReadDigits(s: string, high: nat): (nat, string) {
    if s != "" && IsDigit(s[0]) then ReadDigits(s[1..], 10 * high + (s[0] as int - '0' as int)) else (high, s)
  }

  function ReadNumber(s: string): Option<(Value, string)> {
    if s != "" && IsDigit(s[0]) then
      var (n, rest) := ReadDigits(s, 0);
      Some((Number(n), rest))
    else if |s| > 1 && s[0] == '-' && IsDigit(s[1]) then
      var (n, rest) := ReadDigits(s[1..], 0);
      Some((Number(-(n as int)), rest))
    else None
  }

  function ReadString(d: Dialect, s: string): Option<(string, string)> {
    if d == MySql then ReadMySqlString(s) else ReadSqliteString(s)
  }

  function ReadValue(d: Dialect, s: string): Option<(Value, string)> {
    if "NULL" <= s then Some((Null, s[4..]))
    else if s != "" && s[0] == '\'' then
      match ReadString(d, s)
      case None => None
      case Some((text, rest)) => Some((Text(text), rest))
    else ReadNumber(s)
  }

  function ReadTable(s: string): Option<((Option<string>, string), string)> {
    match ReadIdent(s)
    case None => None
    case Some((first, rest)) =>
      match Expect(".", rest)
      case None => Some(((None, first), rest))
      case Some(more) =>
        match ReadIdent(more)
        case None => None
        case Some((table, rest)) => Some(((Some(first), table), rest))
  }

  function ReadIdents(s: string): Option<(seq<string>, string)>
    decreases |s|
  {
    match ReadIdent(s)
    case None => None
    case Some((id, rest)) =>
      ReadShorter(s[1..], '`');
      match Expect(", ", rest)
      case None => Some(([id], rest))
      case Some(more) =>
        match ReadIdents(more)
        case None => None
        case Some((ids, rest)) => Some(([id] + ids, rest))
  }

  function ReadValues(d: Dialect, s: string): Option<(seq<Value>, string)>
    decreases |s|
  {
    match ReadValue(d, s)
    case None => None
    case Some((v, rest)) =>
      ReadValueShorter(d, s);
      match Expect(", ", rest)
      case None => Some(([v], rest))
      case Some(more) =>
        match ReadValues(d, more)
        case None => None
        case Some((vs, rest)) => Some(([v] + vs, rest))
  }

  function ReadSet(d: Dialect, s: string): Option<((string, string), string)> {
    match ReadIdent(s)
    case None => None
    case Some((column, rest)) =>
      match Expect(if d == MySql then " = VALUES(" else " = excluded.", rest)
      case None => None
      case Some(more) =>
        match ReadIdent(more)
        case None => None
        case Some((source, rest)) =>
          match Expect(if d == MySql then ")" else "", rest)
          case None => None
          case Some(rest) => Some(((column, source), rest))
  }

  function ReadSets(d: Dialect, s: string): Option<(seq<(string, string)>, string)>
    decreases |s|
  {
    match ReadSet(d, s)
    case None => None
    case Some((set', rest)) =>
      ReadSetShorter(d, s);
      match Expect(", ", rest)
      case None => Some(([set'], rest))
      case Some(more) =>
        match ReadSets(d, more)
        case None => None
        case Some((sets, rest)) => Some(([set'] + sets, rest))
  }

  /** The last semicolon may be there or not. */
  function ReadUpsert(d: Dialect, text: string): Option<Upsert> {
    match Expect("INSERT INTO ", text)
    case None => None
    case Some(s) =>
      match ReadTable(s)
      case None => None
      case Some(((database, table), s)) =>
        match Expect(" (", s)
        case None => None
        case Some(s) =>
          match ReadIdents(s)
          case None => None
          case Some((columns, s)) =>
            match Expect(") VALUES (", s)
            case None => None
            case Some(s) =>
              match ReadValues(d, s)
              case None => None
              case Some((values, s)) =>
                match Expect(if d == MySql then ") ON DUPLICATE KEY UPDATE " else ") ON CONFLICT DO UPDATE SET ", s)
                case None => None
                case Some(s) =>
                  match ReadSets(d, s)
                  case None => None
                  case Some((sets, s)) =>
                    if s != "" && s != ";" then None
                    else Some(Upsert(database, table, columns, values, sets))
  }

  lemma ReadMySqlShorter(s: string)
    ensures ReadMySqlBody(s).Some? ==> |ReadMySqlBody(s).value.1| < |s|
    decreases |s|
  {
    if s != "" && s != "\\" && (s[0] != '\'' || (|s| > 1 && s[1] == '\'')) {
      ReadMySqlShorter(s[(if s[0] == '\'' || s[0] == '\\' then 2 else 1)..]);
    }
  }

  lemma {:induction false} ReadDigitsNoLonger(s: string, high: nat)
    ensures |ReadDigits(s, high).1| <= |s|
    decreases |s|
  {
    if s != "" && IsDigit(s[0]) {
      ReadDigitsNoLonger(s[1..], 10 * high + (s[0] as int - '0' as int));
    }
  }

  lemma ReadValueShorter(d: Dialect, s: string)
    ensures ReadValue(d, s).Some? ==> |ReadValue(d, s).value.1| < |s|
  {
    if s != "" {
      ReadMySqlShorter(s[1..]);
      ReadShorter(s[1..], '\'');
      if IsDigit(s[0]) {
        ReadDigitsNoLonger(s[1..], s[0] as int - '0' as int);
      } else {
        ReadDigitsNoLonger(s[1..], 0);
      }
    }
  }

  lemma ReadIdentShorter(s: string)
    ensures ReadIdent(s).Some? ==> |ReadIdent(s).value.1| < |s|
  {
    if s != "" {
      ReadShorter(s[1..], '`');
    }
  }

  lemma ReadSetShorter(d: Dialect, s: string)
    ensures ReadSet(d, s).Some? ==> |ReadSet(d, s).value.1| < |s|
  {
    hide ReadIdent;
    ReadIdentShorter(s);
    if ReadIdent(s).Some? {
      var more := Expect(if d == MySql then " = VALUES(" else " = excluded.", ReadIdent(s).value.1);
      if more.Some? {
        ReadIdentShorter(more.value);
      }
    }
  }

  // ----- Round trips -----

  lemma ExpectPrinted(token: string, rest: string)
    ensures Expect(token, token + rest) == Some(rest)
  {
  }

  lemma {:induction false} DigitsRoundTrip(n: nat, rest: string)
    ensures Digits(n) != "" && IsDigit(Digits(n)[0])
    ensures ReadDigits(Digits(n) + rest, 0) == ReadDigits(rest, n)
    decreases n
  {
    var last := [('0' as int + n % 10) as char];
    if n < 10 {
      assert Digits(n) + rest == last + rest && (last + rest)[1..] == rest;
    } else {
      DigitsRoundTrip(n / 10, last + rest);
      assert Digits(n) + rest == Digits(n / 10) + (last + rest);
      assert (last + rest)[1..] == rest;
    }
  }

  /** What may follow a value in a list. */
  predicate Closes(rest: string) {
    rest != "" && (rest[0] == ',' || rest[0] == ')')
  }

  /** SQLite keeps both halves of a doubled backslash. */
  function AsRead(d: Dialect, v: Value): Value {
    if d == Sqlite && v.Text? then Text(Replace(v.s, '\\', "\\\\")) else v
  }

  lemma StringRoundTrip(d: Dialect, s: string, rest: string)
    requires Closes(rest)
    ensures ReadString(d, EscapeString(s) + rest) == Some((AsRead(d, Text(s)).s, rest))
  {
    if d == MySql {
      MySqlStringRoundTrip(s, rest);
    } else {
      var doubled := Replace(s, '\\', "\\\\");
      QuotedRoundTrip(doubled, '\'', rest);
      assert (EscapeString(s) + rest)[1..] == Replace(doubled, '\'', "''") + "'" + rest;
    }
  }

  /** Every printed value reads back as itself, except a text with backslashes under SQLite. */
  lemma ValueRoundTrip(d: Dialect, v: Value, rest: string)
    requires Closes(rest)
    ensures ReadValue(d, EscapeValue(v) + rest) == Some((AsRead(d, v), rest))
  {
    var printed := EscapeValue(v) + rest;
    match v
    case Null =>
      assert printed[4..] == rest;
    case Number(n) =>
      var size := if n < 0 then -n else n;
      hide Digits;
      DigitsRoundTrip(size, rest);
      assert ReadDigits(rest, size) == (size, rest);
      var digits := Digits(size) + rest;
      assert digits[0] == Digits(size)[0];
      if n < 0 {
        assert printed == "-" + digits && printed[1..] == digits;
        assert printed[0] == '-';
      }
      assert printed[0] != 'N' && printed[0] != '\'';
    case Text(s) =>
      hide ReadString, Escaped;
      StringRoundTrip(d, s, rest);
      assert printed[0] == '\'';
  }

  function AllAsRead(d: Dialect, vs: seq<Value>): seq<Value> {
    if vs == [] then [] else [AsRead(d, vs[0])] + AllAsRead(d, vs[1..])
  }

  lemma ExpectNoComma(rest: string)
    requires rest != "" && rest[0] != ','
    ensures Expect(", ", rest).None?
  {
  }

  lemma {:induction false} ValuesRoundTrip(d: Dialect, vs: seq<Value>, rest: string)
    requires vs != [] && rest != "" && rest[0] == ')'
    ensures ReadValues(d, PrintValues(vs) + rest) == Some((AllAsRead(d, vs), rest))
    decreases |vs|
  {
    hide EscapeValue, ReadValue, AsRead;
    var head, tail := EscapeValue(vs[0]), vs[1..];
    if |vs| == 1 {
      ValueRoundTrip(d, vs[0], rest);
      ExpectNoComma(rest);
      assert AllAsRead(d, vs) == [AsRead(d, vs[0])];
    } else {
      var more := PrintValues(tail) + rest;
      ValuesRoundTrip(d, tail, rest);
      ValueRoundTrip(d, vs[0], ", " + more);
      ExpectPrinted(", ", more);
      assert PrintValues(vs) + rest == head + (", " + more);
      ReadValueShorter(d, head + (", " + more));
    }
  }

  lemma {:induction false} IdentsRoundTrip(columns: seq<string>, rest: string)
    requires columns != [] && rest != "" && rest[0] == ')'
    ensures ReadIdents(PrintIdents(columns) + rest) == Some((columns, rest))
    decreases |columns|
  {
    hide QuoteIdent, ReadIdent;
    var head, tail := QuoteIdent(columns[0]), columns[1..];
    if |columns| == 1 {
      IdentRoundTrip(columns[0], rest);
      ExpectNoComma(rest);
      assert columns == [columns[0]];
    } else {
      var more := PrintIdents(tail) + rest;
      IdentsRoundTrip(tail, rest);
      IdentRoundTrip(columns[0], ", " + more);
      ExpectPrinted(", ", more);
      assert PrintIdents(columns) + rest == head + (", " + more);
      assert columns == [columns[0]] + tail;
    }
  }

  lemma SetRoundTrip(d: Dialect, column: string, rest: string)
    requires rest == "" || rest[0] != '`'
    ensures ReadSet(d, PrintSet(d, column) + rest) == Some(((column, column), rest))
  {
    hide QuoteIdent, ReadIdent;
    var id := QuoteIdent(column);
    var middle := if d == MySql then " = VALUES(" else " = excluded.";
    var end := if d == MySql then ")" else "";
    assert PrintSet(d, column) + rest == id + (middle + (id + (end + rest)));
    IdentRoundTrip(column, middle + (id + (end + rest)));
    ExpectPrinted(middle, id + (end + rest));
    IdentRoundTrip(column, end + rest);
    ExpectPrinted(end, rest);
  }

  function Twice(columns: seq<string>): seq<(string, string)> {
    if columns == [] then [] else [(columns[0], columns[0])] + Twice(columns[1..])
  }

  lemma {:induction false} SetsRoundTrip(d: Dialect, columns: seq<string>)
    requires columns != []
    ensures ReadSets(d, PrintSets(d, columns) + ";") == Some((Twice(columns), ";"))
    decreases |columns|
  {
    hide PrintSet, ReadSet;
    var head, tail := PrintSet(d, columns[0]), columns[1..];
    if |columns| == 1 {
      SetRoundTrip(d, columns[0], ";");
      ExpectNoComma(";");
      assert Twice(columns) == [(columns[0], columns[0])];
    } else {
      var more := PrintSets(d, tail) + ";";
      SetsRoundTrip(d, tail);
      SetRoundTrip(d, columns[0], ", " + more);
      ExpectPrinted(", ", more);
      assert PrintSets(d, columns) + ";" == head + (", " + more);
      ReadSetShorter(d, head + (", " + more));
    }
  }

  lemma TableRoundTrip(database: Option<string>, table: string, rest: string)
    requires rest != "" && rest[0] != '`' && rest[0] != '.'
    ensures ReadTable(PrintTable(database, table) + rest) == Some(((database, table), rest))
  {
    hide QuoteIdent, ReadIdent;
    IdentRoundTrip(table, rest);
    if database.Some? {
      var more := QuoteIdent(table) + rest;
      assert PrintTable(database, table) + rest == QuoteIdent(database.value) + ("." + more);
      IdentRoundTrip(database.value, "." + more);
      ExpectPrinted(".", more);
    }
  }

  /** A server reads a printed statement as the upsert of that very row, column by column. */
  lemma UpsertRoundTrip(d: Dialect, database: Option<string>, table: string, columns: seq<string>,
                        values: seq<Value>)
    requires columns != [] && values != []
    ensures ReadUpsert(d, PrintUpsert(d, database, table, columns, values))
         == Some(Upsert(database, table, columns, AllAsRead(d, values), Twice(columns)))
  {
    hide PrintTable, ReadTable, PrintIdents, ReadIdents, PrintValues, ReadValues, PrintSets, ReadSets, AllAsRead,
        Twice, Expect;
    var s7 := PrintSets(d, columns) + ";";
    var s6 := ConflictClause(d) + s7;
    var s5 := PrintValues(values) + s6;
    var s4 := ") VALUES (" + s5;
    var s3 := PrintIdents(columns) + s4;
    var s2 := " (" + s3;
    var s1 := PrintTable(database, table) + s2;
    ExpectPrinted("INSERT INTO ", s1);
    TableRoundTrip(database, table, s2);
    ExpectPrinted(" (", s3);
    IdentsRoundTrip(columns, s4);
    ExpectPrinted(") VALUES (", s5);
    ValuesRoundTrip(d, values, s6);
    ExpectPrinted(ConflictClause(d), s7);
    SetsRoundTrip(d, columns);
  }
}
