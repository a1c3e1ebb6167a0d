/**
 SQL text the gateway prints (src/sql/ddl.rs, src/backup/restore.rs, src/backup/extractor.rs) against
 the rules by which a server reads it back: quoted identifiers (MySQL 8.4 Reference Manual, section
 11.2), string literals (section 11.1.1), and SQLite's string literals, which know no backslash.
*/
module SqlText {
  import opened Wrappers

  function LowerChar(c: char): char {
    if 'A' <= c <= 'Z' then c - 'A' + 'a' else c
  }

  /** No capital is left, and nothing but capitals is changed. */
  lemma LowerHasNoCapital(c: char)
    ensures !('A' <= LowerChar(c) <= 'Z')
    ensures !('A' <= c <= 'Z') ==> LowerChar(c) == c
    ensures 'A' <= c <= 'Z' ==> 'a' <= LowerChar(c) <= 'z' && LowerChar(c) - 'a' == c - 'A'
  {
  }

  /** Every occurrence of `c` replaced by `put`, as `str::replace` does. */
  function Replace(s: string, c: char, put: string): string {
    if s == "" then "" else (if s[0] == c then put else [s[0]]) + Replace(s[1..], c, put)
  }

  function QuoteIdent(id: string): string {
    "`" + Replace(id, '`', "``") + "`"
  }

  /** The text up to the closing `quote` and what follows it; a doubled quote stands for one. */
  function ReadQuoted(s: string, quote: char): Option<(string, string)> {
    if s == "" then None
    else if s[0] == quote && !(|s| > 1 && s[1] == quote) then Some(("", s[1..]))
    else
      var skip := if s[0] == quote then 2 else 1;
      match ReadQuoted(s[skip..], quote)
      case None => None
      case Some((text, rest)) => Some(([s[0]] + text, rest))
  }

  function ReadIdent(s: string): Option<(string, string)> {
    if s != "" && s[0] == '`' then ReadQuoted(s[1..], '`') else None
  }

  /** Reads one printed character off the front. */
  lemma ReadOneQuoted(c: char, quote: char, more: string)
    ensures var printed := if c == quote then [quote, quote] else [c];
            ReadQuoted(printed + more, quote) ==
            match ReadQuoted(more, quote) case None => None case Some((text, rest)) => Some(([c] + text, rest))
  {
    var printed := if c == quote then [quote, quote] else [c];
    assert (printed + more)[|printed|..] == more;
  }

  /** Printing and reading back a quoted text is the identity, whatever the text and whatever
      follows, as long as no further quote follows. */
  lemma {:induction false} QuotedRoundTrip(text: string, quote: char, rest: string)
    requires rest == "" || rest[0] != quote
    ensures ReadQuoted(Replace(text, quote, [quote, quote]) + [quote] + rest, quote) == Some((text, rest))
    decreases |text|
  {
    if text == "" {
      assert Replace(text, quote, [quote, quote]) + [quote] + rest == [quote] + rest;
    } else {
      hide ReadQuoted;
      var more := Replace(text[1..], quote, [quote, quote]) + [quote] + rest;
      var first := if text[0] == quote then [quote, quote] else [text[0]];
      QuotedRoundTrip(text[1..], quote, rest);
      ReadOneQuoted(text[0], quote, more);
      assert Replace(text, quote, [quote, quote]) + [quote] + rest == first + more;
      assert [text[0]] + text[1..] == text;
    }
  }

  // ----- The rewritten DROP -----

  /** A table the preflight looked up. */
  datatype TableId = TableId(schema: string, table: string)

  function PrintTarget(t: TableId): string {
    QuoteIdent(t.schema) + "." + QuoteIdent(t.table)
  }

  function PrintTargets(ts: seq<TableId>): string {
    if ts == [] then ""
    else if |ts| == 1 then PrintTarget(ts[0])
    else PrintTarget(ts[0]) + ", " + PrintTargets(ts[1..])
  }

  /** The statement that drops exactly the preflight-approved tables; none for object types that
      cannot be rebuilt, and none for an empty list. */
  function RewriteDropSubset(objectType: string, existing: seq<TableId>): Option<string> {
    if objectType != "table" && objectType != "view" then None
    else if existing == [] then None
    else
      var keyword := if objectType == "table" then "DROP TABLE IF EXISTS" else "DROP VIEW IF EXISTS";
      Some(keyword + " " + PrintTargets(existing))
  }

  function ReadTargets(s: string): Option<seq<TableId>>
    decreases |s|
  {
    match ReadIdent(s)
    case None => None
    case Some((schema, dot)) =>
      if dot == "" || dot[0] != '.' then None else
      match ReadIdent(dot[1..])
      case None => None
      case Some((table, more)) =>
        if more == "" then Some([TableId(schema, table)])
        else if !(", " <= more) then None
        else
          ReadShorter(s[1..], '`');
          ReadShorter(dot[2..], '`');
          match ReadTargets(more[2..])
          case None => None
          case Some(ts) => Some([TableId(schema, table)] + ts)
  }

  lemma ReadShorter(s: string, quote: char)
    ensures ReadQuoted(s, quote).Some? ==> |ReadQuoted(s, quote).value.1| < |s|
    decreases |s|
  {
    if s != "" && (s[0] != quote || (|s| > 1 && s[1] == quote)) {
      ReadShorter(s[(if s[0] == quote then 2 else 1)..], quote);
    }
  }

  /** The tables a server drops when it is sent `sql`. */
  function ReadDrop(sql: string): Option<seq<TableId>> {
    if "DROP TABLE IF EXISTS " <= sql then ReadTargets(sql[21..])
    else if "DROP VIEW IF EXISTS " <= sql then ReadTargets(sql[20..])
    else None
  }

  lemma IdentRoundTrip(id: string, rest: string)
    requires rest == "" || rest[0] != '`'
    ensures ReadIdent(QuoteIdent(id) + rest) == Some((id, rest))
  {
    hide Replace, ReadQuoted;
    QuotedRoundTrip(id, '`', rest);
    assert ['`', '`'] == "``" && ['`'] == "`";
    assert (QuoteIdent(id) + rest)[1..] == Replace(id, '`', "``") + "`" + rest;
  }

  /** Reads one printed target off the front. */
  lemma ReadOneTarget(t: TableId, rest: string)
    requires rest == "" || ", " <= rest
    ensures ReadTargets(PrintTarget(t) + rest) ==
            if rest == "" then Some([t])
            else match ReadTargets(rest[2..]) case None => None case Some(ts) => Some([t] + ts)
  {
    hide Replace, ReadQuoted, QuoteIdent, ReadIdent;
    var tail := QuoteIdent(t.table) + rest;
    assert PrintTarget(t) + rest == QuoteIdent(t.schema) + ("." + tail);
    IdentRoundTrip(t.schema, "." + tail);
    IdentRoundTrip(t.table, rest);
    assert ("." + tail)[1..] == tail;
  }

  lemma {:induction false} TargetsRoundTrip(ts: seq<TableId>)
    requires ts != []
    ensures ReadTargets(PrintTargets(ts)) == Some(ts)
    decreases |ts|
  {
    hide ReadTargets, PrintTarget;
    var t := ts[0];
    if |ts| == 1 {
      ReadOneTarget(t, "");
      assert PrintTargets(ts) == PrintTarget(t) + "" && ts == [t];
    } else {
      var rest := ", " + PrintTargets(ts[1..]);
      assert PrintTargets(ts) == PrintTarget(t) + rest;
      ReadOneTarget(t, rest);
      assert rest[2..] == PrintTargets(ts[1..]);
      TargetsRoundTrip(ts[1..]);
      assert ts == [t] + ts[1..];
    }
  }

  /** The rewrite exists exactly for a nonempty list of tables or views, and a server that receives
      it drops exactly the listed ones in order, for names with backticks, dots, commas or spaces. */
  lemma RewriteNamesExactly(objectType: string, existing: seq<TableId>)
    ensures RewriteDropSubset(objectType, existing).Some? <==>
              existing != [] && (objectType == "table" || objectType == "view")
    ensures RewriteDropSubset(objectType, existing).Some? ==>
              ReadDrop(RewriteDropSubset(objectType, existing).value) == Some(existing)
  {
    hide PrintTargets, ReadTargets;
    if RewriteDropSubset(objectType, existing).Some? {
      TargetsRoundTrip(existing);
      var t := PrintTargets(existing);
      if objectType == "table" {
        assert "DROP TABLE IF EXISTS" + " " + t == "DROP TABLE IF EXISTS " + t;
        assert ("DROP TABLE IF EXISTS " + t)[21..] == t;
      } else {
        assert "DROP VIEW IF EXISTS" + " " + t == "DROP VIEW IF EXISTS " + t;
        assert ("DROP VIEW IF EXISTS " + t)[5] == 'V' && ("DROP VIEW IF EXISTS " + t)[20..] == t;
      }
    }
  }

  // ----- String literals -----

  /** `escape_value` on a string: backslashes doubled first, then quotes. */
  function EscapeString(s: string): string {
    "'" + Escaped(s) + "'"
  }

  function Escaped(s: string): string {
    Replace(Replace(s, '\\', "\\\\"), '\'', "''")
  }

  /** What the character after a backslash stands for in a MySQL literal. */
  function Unescaped(c: char): string {
    match c
    case '0' => "\0"
    case 'b' => [8 as char]
    case 'n' => "\n"
    case 'r' => "\r"
    case 't' => "\t"
    case 'Z' => [26 as char]
    case '%' => "\\%"
    case '_' => "\\_"
    case _ => [c]
  }

  /** The body of a MySQL string literal, read to its closing quote. */
  function ReadMySqlBody(s: string): Option<(string, string)> {
    if s == "" then None
    else if s[0] == '\'' && !(|s| > 1 && s[1] == '\'') then Some(("", s[1..]))
    else if s == "\\" then None
    else
      var (text, skip) :=
        if s[0] == '\'' then ("'", 2)
        else if s[0] == '\\' then (Unescaped(s[1]), 2)
        else ([s[0]], 1);
      match ReadMySqlBody(s[skip..])
      case None => None
      case Some((more, rest)) => Some((text + more, rest))
  }

  function ReadMySqlString(s: string): Option<(string, string)> {
    if s != "" && s[0] == '\'' then ReadMySqlBody(s[1..]) else None
  }

  function ReadSqliteString(s: string): Option<(string, string)> {
    if s != "" && s[0] == '\'' then ReadQuoted(s[1..], '\'') else None
  }

  function EscapedChar(c: char): string {
    if c == '\\' then "\\\\" else if c == '\'' then "''" else [c]
  }

  /** The two replacements act on each character by itself. */
  lemma ReplaceCons(x: char, s: string, c: char, put: string)
    ensures Replace([x] + s, c, put) == (if x == c then put else [x]) + Replace(s, c, put)
  {
    assert ([x] + s)[1..] == s;
  }

  lemma EscapeByChar(s: string)
    requires s != ""
    ensures Escaped(s) == EscapedChar(s[0]) + Escaped(s[1..])
  {
    hide Replace;
    var more := Replace(s[1..], '\\', "\\\\");
    assert s == [s[0]] + s[1..];
    ReplaceCons(s[0], s[1..], '\\', "\\\\");
    if s[0] == '\\' {
      assert "\\\\" + more == ['\\'] + (['\\'] + more);
      ReplaceCons('\\', ['\\'] + more, '\'', "''");
      ReplaceCons('\\', more, '\'', "''");
    } else {
      ReplaceCons(s[0], more, '\'', "''");
    }
  }

  /** Reads one escaped character off the front. */
  lemma ReadOneChar(c: char, more: string)
    ensures ReadMySqlBody(EscapedChar(c) + more) ==
            match ReadMySqlBody(more) case None => None case Some((text, rest)) => Some(([c] + text, rest))
  {
    var s := EscapedChar(c) + more;
    if c == '\\' {
      assert s[0] == '\\' && s[1] == '\\' && s[2..] == more && |s| > 1;
      assert Unescaped('\\') == ['\\'];
    } else if c == '\'' {
      assert s[0] == '\'' && s[1] == '\'' && s[2..] == more && |s| > 1;
      assert "'" == ['\''];
    } else {
      assert s[0] == c && s[1..] == more;
    }
  }

  lemma {:induction false} MySqlBodyRoundTrip(s: string, rest: string)
    requires rest == "" || rest[0] != '\''
    ensures ReadMySqlBody(Escaped(s) + "'" + rest) == Some((s, rest))
    decreases |s|
  {
    hide Replace;
    if s == "" {
      assert Escaped("") == "" by { ReplaceNothing(); }
      assert Escaped(s) + "'" + rest == "'" + rest;
    } else {
      hide ReadMySqlBody, Escaped;
      var more := Escaped(s[1..]) + "'" + rest;
      EscapeByChar(s);
      MySqlBodyRoundTrip(s[1..], rest);
      assert Escaped(s) + "'" + rest == EscapedChar(s[0]) + more;
      ReadOneChar(s[0], more);
      assert [s[0]] + s[1..] == s;
    }
  }

  lemma ReplaceNothing()
    ensures forall c: char, put: string :: Replace("", c, put) == ""
  {
  }

  /** A MySQL server reads the printed literal back as the same string, whatever the string. */
  lemma MySqlStringRoundTrip(s: string, rest: string)
    requires rest == "" || rest[0] != '\''
    ensures ReadMySqlString(EscapeString(s) + rest) == Some((s, rest))
  {
    MySqlBodyRoundTrip(s, rest);
    assert (EscapeString(s) + rest)[1..] == Escaped(s) + "'" + rest;
  }

  /** The same text is printed for SQLite, which keeps both halves of a doubled backslash: there the
      round trip holds exactly for strings without backslashes. */
  lemma SqliteStringRoundTripIff(s: string, rest: string)
    requires rest == "" || rest[0] != '\''
    ensures ReadSqliteString(EscapeString(s) + rest) == Some((s, rest)) <==> '\\' !in s
  {
    var doubled := Replace(s, '\\', "\\\\");
    QuotedRoundTrip(doubled, '\'', rest);
    assert (EscapeString(s) + rest)[1..] == Replace(doubled, '\'', "''") + "'" + rest;
    DoublingIsVisible(s);
  }

  lemma {:induction false} DoublingIsVisible(s: string)
    ensures |Replace(s, '\\', "\\\\")| >= |s|
    ensures Replace(s, '\\', "\\\\") == s <==> '\\' !in s
    decreases |s|
  {
    if s != "" {
      DoublingIsVisible(s[1..]);
      assert s == [s[0]] + s[1..];
      var more := Replace(s[1..], '\\', "\\\\");
      if s[0] != '\\' {
        assert ([s[0]] + more)[1..] == more && s[1..] == ([s[0]] + s[1..])[1..];
      }
    }
  }
}
