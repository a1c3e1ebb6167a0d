/**
 The gate before a replay (src/mcp/tools.rs `resolve_restore_plan`, src/policy/classifier.rs): every statement
 of a restore plan is classified first, and one that is refused stops the whole replay. Classification begins
 by stripping comments from the text, inside quotes as well.
*/
module RestoreGate {
  import opened Wrappers
  import opened SqlText
  import opened RenamePlan
  import opened UpsertText

  // ----- Stripping comments -----

  /** What is left behind the end of a block comment; nothing if it has no end. */
  function AfterBlock(s: string): string {
    if |s| < 2 then "" else if s[0] == '*' && s[1] == '/' then s[2..] else AfterBlock(s[1..])
  }

  function FromNewline(s: string): string {
    if s == "" || s[0] == '\n' then s else FromNewline(s[1..])
  }

  predicate OpensBlock(s: string) {
    |s| > 1 && s[0] == '/' && s[1] == '*'
  }

  predicate OpensLine(s: string) {
    s != "" && (s[0] == '#' || (|s| > 1 && s[0] == '-' && s[1] == '-'))
  }

  lemma AfterBlockShorter(s: string)
    ensures |AfterBlock(s)| <= |s|
  {
  }

  lemma FromNewlineShorter(s: string)
    ensures |FromNewline(s)| <= |s|
    ensures OpensLine(s) ==> |FromNewline(s)| < |s|
  {
    if s != "" && s[0] != '\n' {
      FromNewlineShorter(s[1..]);
    }
  }

  function Strip(s: string): string
    decreases |s|
  {
    if s == "" then ""
    else if OpensBlock(s) then
      AfterBlockShorter(s[2..]);
      " " + Strip(AfterBlock(s[2..]))
    else if OpensLine(s) then
      FromNewlineShorter(s);
      " " + Strip(FromNewline(s))
    else [s[0]] + Strip(s[1..])
  }

  /** The place behind the end of the block comment whose inside starts at `from`. */
  method SkipBlock(sql: string, from: nat) returns (i: nat)
    requires from <= |sql|
    ensures from <= i <= |sql| && sql[i..] == AfterBlock(sql[from..])
  {
    i := from;
    var n := |sql|;
    while i + 1 < n && !(sql[i] == '*' && sql[i + 1] == '/')
      invariant from <= i <= n && AfterBlock(sql[from..]) == AfterBlock(sql[i..])
    {
      assert sql[i..][1..] == sql[i + 1..];
      i := i + 1;
    }
    i := if i + 2 < n then i + 2 else n;
  }

  /** The place of the next line end. */
  method SkipLine(sql: string, from: nat) returns (i: nat)
    requires from <= |sql|
    ensures from <= i <= |sql| && sql[i..] == FromNewline(sql[from..])
  {
    i := from;
    while i < |sql| && sql[i] != '\n'
      invariant from <= i <= |sql| && FromNewline(sql[from..]) == FromNewline(sql[i..])
    {
      assert sql[i..][1..] == sql[i + 1..];
      i := i + 1;
    }
  }

  predicate BlockAt(sql: string, i: nat) {
    i + 1 < |sql| && sql[i] == '/' && sql[i + 1] == '*'
  }

  predicate LineAt(sql: string, i: nat) {
    i < |sql| && (sql[i] == '#' || (i + 1 < |sql| && sql[i] == '-' && sql[i + 1] == '-'))
  }

  lemma StripAt(sql: string, i: nat)
    requires i < |sql|
    ensures Strip(sql[i..]) ==
            if BlockAt(sql, i) then " " + Strip(AfterBlock(sql[i + 2..]))
            else if LineAt(sql, i) then " " + Strip(FromNewline(sql[i..]))
            else [sql[i]] + Strip(sql[i + 1..])
  {
    var s := sql[i..];
    assert s[1..] == sql[i + 1..];
    if |s| > 1 {
      assert s[2..] == sql[i + 2..];
    }
  }

  lemma LineIsSkipped(sql: string, i: nat)
    requires LineAt(sql, i)
    ensures |FromNewline(sql[i..])| < |sql| - i
  {
    FromNewlineShorter(sql[i..]);
  }

  method StripComments(sql: string) returns (out: string)
    ensures out == Strip(sql)
  {
    hide *;
    out := "";
    var i := 0;
    assert sql[0..] == sql;
    while i < |sql|
      invariant 0 <= i <= |sql| && Strip(sql) == out + Strip(sql[i..])
    {
      StripAt(sql, i);
      ghost var before := out;
      if BlockAt(sql, i) {
        BlockFits(sql, i);
        i := SkipBlock(sql, i + 2);
        out := out + " ";
        assert out + Strip(sql[i..]) == before + (" " + Strip(sql[i..]));
      } else if LineAt(sql, i) {
        LineIsSkipped(sql, i);
        i := SkipLine(sql, i);
        out := out + " ";
        assert out + Strip(sql[i..]) == before + (" " + Strip(sql[i..]));
      } else {
        out := out + [sql[i]];
        assert out + Strip(sql[i + 1..]) == before + ([sql[i]] + Strip(sql[i + 1..]));
        i := i + 1;
      }
    }
    StripNothing();
    assert sql[i..] == "";
  }

  lemma BlockFits(sql: string, i: nat)
    requires BlockAt(sql, i)
    ensures i + 2 <= |sql|
  {
  }

  lemma StripNothing()
    ensures Strip("") == ""
  {
  }

  // ----- More than one statement -----

  predicate IsSpace(c: char) {
    c == ' ' || c == '\n' || c == '\t' || c == '\r'
  }

  function TrimEnd(s: string): string {
    if s != "" && IsSpace(s[|s| - 1]) then TrimEnd(s[..|s| - 1]) else s
  }

  function DropSemicolon(s: string): string {
    if s != "" && s[|s| - 1] == ';' then s[..|s| - 1] else s
  }

  /** A semicolon outside quotes and parentheses. A quote after a backslash does not end a quoted text. */
  predicate Multiple(s: string, prev: char, quote: Option<char>, depth: int) {
    s != "" &&
    var c := s[0];
    if quote.Some? then Multiple(s[1..], c, if c == quote.value && prev != '\\' then None else quote, depth)
    else if c == '\'' || c == '"' || c == '`' then Multiple(s[1..], c, Some(c), depth)
    else if c == '(' then Multiple(s[1..], c, None, depth + 1)
    else if c == ')' then Multiple(s[1..], c, None, depth - 1)
    else (c == ';' && depth == 0) || Multiple(s[1..], c, None, depth)
  }

  predicate LooksMultiple(stripped: string) {
    Multiple(DropSemicolon(TrimEnd(stripped)), ' ', None, 0)
  }

  // ----- The gate -----

  /** `phrase` begins `s`, in whatever case. */
  predicate Begins(s: string, phrase: string) {
    phrase == "" || (s != "" && LowerChar(s[0]) == phrase[0] && Begins(s[1..], phrase[1..]))
  }

  /** `phrase` is somewhere in `s`, in whatever case. */
  predicate Contains(s: string, phrase: string) {
    Begins(s, phrase) || (s != "" && Contains(s[1..], phrase))
  }

  predicate NamesFiles(s: string) {
    Contains(s, "into outfile") || Contains(s, "into dumpfile") || Contains(s, "load data")
  }

  /** What the policy of the connection does not deny: writing a table, and reading at all. */
  datatype Policy = Policy(write: TableRef -> bool, read: bool)

  /** The gate lets the statement pass. A text that does not parse is refused, with the exception of what looks like
      a locking read. */
  predicate Admits(d: Dialect, policy: Policy, text: string) {
    var stripped := Strip(text);
    && !LooksMultiple(stripped)
    && match ReadUpsert(d, stripped)
       case Some(u) => policy.write(TableRef(u.database, u.table)) && !NamesFiles(stripped)
       case None =>
         !Contains(stripped, "into outfile") && !Contains(stripped, "into dumpfile")
         && Contains(stripped, "lock in share mode") && policy.read
  }

  // ----- Texts without comments -----

  /** No comment opens in `s`. */
  predicate NoOpener(s: string) {
    s == "" || (!OpensBlock(s) && !OpensLine(s) && NoOpener(s[1..]))
  }

  /** Nothing opens where `a` and `b` meet. */
  predicate Apart(a: string, b: string) {
    a == "" || b == ""
    || !((a[|a| - 1] == '-' && b[0] == '-') || (a[|a| - 1] == '/' && b[0] == '*'))
  }

  lemma {:induction false} NoOpenerConcat(a: string, b: string)
    requires Apart(a, b)
    ensures NoOpener(a + b) <==> NoOpener(a) && NoOpener(b)
    decreases |a|
  {
    if a == "" {
      assert a + b == b;
    } else {
      assert (a + b)[1..] == a[1..] + b;
      NoOpenerConcat(a[1..], b);
    }
  }

  /** A comment runs to the end of the text. */
  predicate RunsOff(s: string)
    decreases |s|
  {
    if s == "" then false
    else if OpensBlock(s) then
      AfterBlockShorter(s[2..]);
      AfterBlock(s[2..]) == "" || RunsOff(AfterBlock(s[2..]))
    else if OpensLine(s) then
      FromNewlineShorter(s);
      FromNewline(s) == "" || RunsOff(FromNewline(s))
    else RunsOff(s[1..])
  }

  /** A part without comments is kept as it is. */
  lemma {:induction false} StripConcat(a: string, b: string)
    requires NoOpener(a) && Apart(a, b)
    ensures Strip(a + b) == a + Strip(b) && (RunsOff(a + b) <==> RunsOff(b))
    decreases |a|
  {
    if a == "" {
      assert a + b == b;
    } else {
      var s := a + b;
      assert s[1..] == a[1..] + b;
      StripConcat(a[1..], b);
      assert !OpensBlock(s) && !OpensLine(s);
      assert a == [a[0]] + a[1..];
    }
  }

  lemma StripClean(s: string)
    requires NoOpener(s)
    ensures Strip(s) == s && !RunsOff(s)
  {
    assert s + "" == s;
    StripConcat(s, "");
  }

  lemma {:induction false} RunsOffEndsInSpace(s: string)
    requires RunsOff(s)
    ensures Strip(s) != "" && Strip(s)[|Strip(s)| - 1] == ' '
    decreases |s|
  {
    if OpensBlock(s) {
      AfterBlockShorter(s[2..]);
      if AfterBlock(s[2..]) != "" { RunsOffEndsInSpace(AfterBlock(s[2..])); }
    } else if OpensLine(s) {
      FromNewlineShorter(s);
      if FromNewline(s) != "" { RunsOffEndsInSpace(FromNewline(s)); }
    } else {
      RunsOffEndsInSpace(s[1..]);
    }
  }

  /** No comment ends in `s`. */
  predicate NoCloser(s: string) {
    '\n' !in s && !ClosesBlock(s)
  }

  predicate ClosesBlock(s: string) {
    |s| > 1 && ((s[0] == '*' && s[1] == '/') || ClosesBlock(s[1..]))
  }

  lemma {:induction false} NothingCloses(s: string)
    requires NoCloser(s)
    ensures AfterBlock(s) == "" && FromNewline(s) == ""
    decreases |s|
  {
    if s != "" {
      assert s == [s[0]] + s[1..];
      NothingCloses(s[1..]);
    }
  }

  /** Where no comment ends, every comment runs off. */
  lemma {:induction false} RunsOffIff(s: string)
    requires NoCloser(s)
    ensures RunsOff(s) <==> !NoOpener(s)
    decreases |s|
  {
    if s != "" {
      assert s == [s[0]] + s[1..];
      if OpensBlock(s) {
        assert s[2..] == s[1..][1..];
        CloserOfTail(s);
        CloserOfTail(s[1..]);
        NothingCloses(s[2..]);
      } else if OpensLine(s) {
        NothingCloses(s);
      } else {
        CloserOfTail(s);
        RunsOffIff(s[1..]);
      }
    }
  }

  lemma CloserOfTail(s: string)
    requires s != "" && NoCloser(s)
    ensures NoCloser(s[1..])
  {
  }

  // ----- A text that runs off is no upsert -----

  /** `rest` is the end of `s`. */
  predicate Ends(s: string, rest: string) {
    |rest| <= |s| && s[|s| - |rest|..] == rest
  }

  lemma EndsOfEnd(s: string, t: string, u: string)
    requires Ends(s, t) && Ends(t, u)
    ensures Ends(s, u)
  {
    assert s[|s| - |u|..] == t[|t| - |u|..];
  }

  lemma {:induction false} QuotedEnds(s: string, quote: char)
    ensures ReadQuoted(s, quote).Some? ==> Ends(s, ReadQuoted(s, quote).value.1)
    ensures ReadQuoted(s, quote).Some? && ReadQuoted(s, quote).value.1 == "" ==> s != "" && s[|s| - 1] == quote
    decreases |s|
  {
    if s != "" && !(s[0] == quote && !(|s| > 1 && s[1] == quote)) {
      var skip := if s[0] == quote then 2 else 1;
      QuotedEnds(s[skip..], quote);
      if ReadQuoted(s[skip..], quote).Some? {
        EndsOfEnd(s, s[skip..], ReadQuoted(s[skip..], quote).value.1);
      }
    }
  }

  lemma {:induction false} MySqlBodyEnds(s: string)
    ensures ReadMySqlBody(s).Some? ==> Ends(s, ReadMySqlBody(s).value.1)
    decreases |s|
  {
    if s != "" && s != "\\" && !(s[0] == '\'' && !(|s| > 1 && s[1] == '\'')) {
      var skip := if s[0] == '\'' || s[0] == '\\' then 2 else 1;
      MySqlBodyEnds(s[skip..]);
      if ReadMySqlBody(s[skip..]).Some? {
        EndsOfEnd(s, s[skip..], ReadMySqlBody(s[skip..]).value.1);
      }
    }
  }

  lemma {:induction false} DigitsEnd(s: string, high: nat)
    ensures Ends(s, ReadDigits(s, high).1)
    decreases |s|
  {
    if s != "" && IsDigit(s[0]) {
      var more := 10 * high + (s[0] as int - '0' as int);
      DigitsEnd(s[1..], more);
      EndsOfEnd(s, s[1..], ReadDigits(s[1..], more).1);
    }
  }

  lemma IdentEnds(s: string)
    ensures ReadIdent(s).Some? ==> Ends(s, ReadIdent(s).value.1)
    ensures ReadIdent(s).Some? && ReadIdent(s).value.1 == "" ==> s != "" && s[|s| - 1] == '`'
  {
    if s != "" {
      QuotedEnds(s[1..], '`');
      if ReadIdent(s).Some? {
        EndsOfEnd(s, s[1..], ReadIdent(s).value.1);
      }
    }
  }

  lemma StringEnds(d: Dialect, s: string)
    ensures ReadString(d, s).Some? ==> Ends(s, ReadString(d, s).value.1)
  {
    if ReadString(d, s).Some? {
      MySqlBodyEnds(s[1..]);
      QuotedEnds(s[1..], '\'');
      hide ReadMySqlBody, ReadQuoted;
      EndsOfEnd(s, s[1..], ReadString(d, s).value.1);
    }
  }

  lemma NumberEnds(s: string)
    ensures ReadNumber(s).Some? ==> Ends(s, ReadNumber(s).value.1)
  {
    if ReadNumber(s).Some? {
      DigitsEnd(s, 0);
      DigitsEnd(s[1..], 0);
      hide ReadDigits;
      if !IsDigit(s[0]) {
        EndsOfEnd(s, s[1..], ReadNumber(s).value.1);
      }
    }
  }

  lemma ValueEnds(d: Dialect, s: string)
    ensures ReadValue(d, s).Some? ==> Ends(s, ReadValue(d, s).value.1)
  {
    StringEnds(d, s);
    NumberEnds(s);
    hide ReadString, ReadNumber;
  }

  lemma ExpectEnds(token: string, s: string)
    ensures Expect(token, s).Some? ==> Ends(s, Expect(token, s).value)
  {
  }

  lemma TableEnds(s: string)
    ensures ReadTable(s).Some? ==> Ends(s, ReadTable(s).value.1)
  {
    hide ReadIdent, Expect;
    IdentEnds(s);
    if ReadIdent(s).Some? {
      var rest := ReadIdent(s).value.1;
      ExpectEnds(".", rest);
      if Expect(".", rest).Some? {
        var more := Expect(".", rest).value;
        IdentEnds(more);
        EndsOfEnd(s, rest, more);
        if ReadIdent(more).Some? {
          EndsOfEnd(s, more, ReadIdent(more).value.1);
        }
      }
    }
  }

  lemma {:induction false} IdentsEnd(s: string)
    ensures ReadIdents(s).Some? ==> Ends(s, ReadIdents(s).value.1)
    decreases |s|
  {
    hide ReadIdent, Expect;
    IdentEnds(s);
    if ReadIdent(s).Some? {
      var rest := ReadIdent(s).value.1;
      ReadIdentShorter(s);
      ExpectEnds(", ", rest);
      if Expect(", ", rest).Some? {
        var more := Expect(", ", rest).value;
        EndsOfEnd(s, rest, more);
        IdentsEnd(more);
        if ReadIdents(more).Some? {
          EndsOfEnd(s, more, ReadIdents(more).value.1);
        }
      }
    }
  }

  lemma {:induction false} ValuesEnd(d: Dialect, s: string)
    ensures ReadValues(d, s).Some? ==> Ends(s, ReadValues(d, s).value.1)
    decreases |s|
  {
    hide ReadValue, Expect;
    ValueEnds(d, s);
    if ReadValue(d, s).Some? {
      var rest := ReadValue(d, s).value.1;
      ReadValueShorter(d, s);
      ExpectEnds(", ", rest);
      if Expect(", ", rest).Some? {
        var more := Expect(", ", rest).value;
        EndsOfEnd(s, rest, more);
        ValuesEnd(d, more);
        if ReadValues(d, more).Some? {
          EndsOfEnd(s, more, ReadValues(d, more).value.1);
        }
      }
    }
  }

  predicate EndsInSet(s: string) {
    s != "" && (s[|s| - 1] == ')' || s[|s| - 1] == '`')
  }

  lemma EndsAlike(s: string, t: string)
    requires Ends(s, t) && t != ""
    ensures s != "" && s[|s| - 1] == t[|t| - 1]
  {
  }

  /** The last part of a set: a name, on MySQL in parentheses. */
  lemma SourceEnds(d: Dialect, more: string, rest: string)
    requires ReadIdent(more).Some? && Expect(if d == MySql then ")" else "", ReadIdent(more).value.1) == Some(rest)
    ensures Ends(more, rest) && (rest == "" ==> EndsInSet(more))
  {
    IdentEnds(more);
    var after := ReadIdent(more).value.1;
    hide ReadIdent;
    var end := if d == MySql then ")" else "";
    ExpectEnds(end, after);
    EndsOfEnd(more, after, rest);
    if rest == "" && d == MySql {
      assert after == ")";
      EndsAlike(more, after);
    }
  }

  lemma SetEnds(d: Dialect, s: string)
    ensures ReadSet(d, s).Some? ==> Ends(s, ReadSet(d, s).value.1)
    ensures ReadSet(d, s).Some? && ReadSet(d, s).value.1 == "" ==> EndsInSet(s)
  {
    hide ReadIdent, Expect, Ends, EndsInSet;
    if ReadSet(d, s).Some? {
      IdentEnds(s);
      var rest := ReadIdent(s).value.1;
      var middle := if d == MySql then " = VALUES(" else " = excluded.";
      ExpectEnds(middle, rest);
      var more := Expect(middle, rest).value;
      SourceEnds(d, more, ReadSet(d, s).value.1);
      EndsOfEnd(s, rest, more);
      EndsOfEnd(s, more, ReadSet(d, s).value.1);
      if ReadSet(d, s).value.1 == "" {
        SetEndsAlike(s, more);
      }
    }
  }

  lemma SetEndsAlike(s: string, t: string)
    requires Ends(s, t) && EndsInSet(t)
    ensures EndsInSet(s)
  {
    EndsAlike(s, t);
  }

  lemma {:induction false} SetsEnd(d: Dialect, s: string)
    ensures ReadSets(d, s).Some? ==> Ends(s, ReadSets(d, s).value.1)
    ensures ReadSets(d, s).Some? && ReadSets(d, s).value.1 == "" ==> EndsInSet(s)
    decreases |s|
  {
    hide ReadSet, Expect;
    SetEnds(d, s);
    if ReadSet(d, s).Some? {
      var rest := ReadSet(d, s).value.1;
      ReadSetShorter(d, s);
      ExpectEnds(", ", rest);
      if Expect(", ", rest).Some? {
        var more := Expect(", ", rest).value;
        EndsOfEnd(s, rest, more);
        SetsEnd(d, more);
        if ReadSets(d, more).Some? {
          EndsOfEnd(s, more, ReadSets(d, more).value.1);
          if ReadSets(d, more).value.1 == "" {
            SetEndsAlike(s, more);
          }
        }
      }
    }
  }

  /** The first half of reading an upsert, up to its values. */
  lemma HeadEnds(text: string, s1: string, s2: string, s3: string, s4: string, s5: string)
    requires Expect("INSERT INTO ", text) == Some(s1)
    requires ReadTable(s1).Some? && ReadTable(s1).value.1 == s2
    requires Expect(" (", s2) == Some(s3)
    requires ReadIdents(s3).Some? && ReadIdents(s3).value.1 == s4
    requires Expect(") VALUES (", s4) == Some(s5)
    ensures Ends(text, s5)
  {
    hide ReadTable, ReadIdents, Expect, Ends;
    ExpectEnds("INSERT INTO ", text);
    TableEnds(s1);
    ExpectEnds(" (", s2);
    IdentsEnd(s3);
    ExpectEnds(") VALUES (", s4);
    EndsOfEnd(text, s1, s2);
    EndsOfEnd(text, s2, s3);
    EndsOfEnd(text, s3, s4);
    EndsOfEnd(text, s4, s5);
  }

  /** And the second half. */
  lemma TailEnds(d: Dialect, s5: string, clause: string, s6: string, s7: string, s8: string)
    requires ReadValues(d, s5).Some? && ReadValues(d, s5).value.1 == s6
    requires Expect(clause, s6) == Some(s7)
    requires ReadSets(d, s7).Some? && ReadSets(d, s7).value.1 == s8
    ensures Ends(s5, s8) && (s8 == "" ==> EndsInSet(s5))
  {
    hide ReadValues, ReadSets, Expect, Ends, EndsInSet;
    ValuesEnd(d, s5);
    ExpectEnds(clause, s6);
    SetsEnd(d, s7);
    EndsOfEnd(s5, s6, s7);
    EndsOfEnd(s5, s7, s8);
    if s8 == "" {
      SetEndsAlike(s5, s7);
    }
  }

  /** An upsert ends in a semicolon, a parenthesis or a backtick. */
  lemma UpsertEnds(d: Dialect, text: string)
    requires ReadUpsert(d, text).Some?
    ensures text != "" && (text[|text| - 1] == ';' || EndsInSet(text))
  {
    hide ReadTable, ReadIdents, ReadValues, ReadSets, Expect, Ends, EndsInSet;
    var s1 := Expect("INSERT INTO ", text).value;
    var s2 := ReadTable(s1).value.1;
    var s3 := Expect(" (", s2).value;
    var s4 := ReadIdents(s3).value.1;
    var s5 := Expect(") VALUES (", s4).value;
    var s6 := ReadValues(d, s5).value.1;
    var clause := if d == MySql then ") ON DUPLICATE KEY UPDATE " else ") ON CONFLICT DO UPDATE SET ";
    var s7 := Expect(clause, s6).value;
    var s8 := ReadSets(d, s7).value.1;
    HeadEnds(text, s1, s2, s3, s4, s5);
    TailEnds(d, s5, clause, s6, s7, s8);
    EndsOfEnd(text, s5, s8);
    if s8 == "" {
      SetEndsAlike(text, s5);
      NotEmpty(text);
    } else {
      EndsAlike(text, s8);
    }
  }

  lemma NotEmpty(s: string)
    requires EndsInSet(s)
    ensures s != ""
  {
  }

  /** A statement in which a comment runs off does not parse. */
  lemma RunningOffIsNoUpsert(d: Dialect, text: string)
    requires RunsOff(text)
    ensures ReadUpsert(d, Strip(text)).None?
  {
    RunsOffEndsInSpace(text);
    if ReadUpsert(d, Strip(text)).Some? {
      UpsertEnds(d, Strip(text));
    }
  }

  // ----- Where comments can open and close in a printed statement -----

  datatype Mark = Opener | Closer | Semicolon | Backslash

  predicate Free(m: Mark, s: string) {
    match m
    case Opener => NoOpener(s)
    case Closer => NoCloser(s)
    case Semicolon => ';' !in s
    case Backslash => '\\' !in s
  }

  /** What follows `a` cannot complete a mark begun in it. */
  predicate LastSafe(a: string) {
    a != "" ==> a[|a| - 1] != '-' && a[|a| - 1] != '/' && a[|a| - 1] != '*'
  }

  lemma {:induction false} ClosesBlockConcat(a: string, b: string)
    requires LastSafe(a)
    ensures ClosesBlock(a + b) <==> ClosesBlock(a) || ClosesBlock(b)
    decreases |a|
  {
    if a == "" {
      assert a + b == b;
    } else {
      assert (a + b)[1..] == a[1..] + b;
      ClosesBlockConcat(a[1..], b);
    }
  }

  lemma FreeConcat(m: Mark, a: string, b: string)
    requires LastSafe(a)
    ensures Free(m, a + b) <==> Free(m, a) && Free(m, b)
  {
    NoOpenerConcat(a, b);
    ClosesBlockConcat(a, b);
  }

  /** Doubling quotes makes and breaks no mark. */
  lemma {:induction false} DoubledFree(m: Mark, s: string, q: char)
    requires q == '`' || q == '\'' || q == '\\'
    ensures Free(m, Replace(s, q, [q, q])) <==> Free(m, s)
    ensures |Replace(s, q, [q, q])| > 0 <==> |s| > 0
    ensures s != "" ==> Replace(s, q, [q, q])[0] == s[0]
    decreases |s|
  {
    if s != "" {
      DoubledFree(m, s[1..], q);
      var more := Replace(s[1..], q, [q, q]);
      assert s == [s[0]] + s[1..];
      if s[0] == q {
        assert Replace(s, q, [q, q]) == [q] + ([q] + more);
        OneMore(m, q, [q] + more);
        OneMore(m, q, more);
      } else {
        assert Replace(s, q, [q, q]) == [s[0]] + more;
        OneMore(m, s[0], more);
      }
      OneMore(m, s[0], s[1..]);
    }
  }

  lemma OneMore(m: Mark, c: char, rest: string)
    ensures Free(m, [c] + rest) <==>
              && Free(m, rest)
              && match m
                 case Opener => !OpensBlock([c] + rest) && !OpensLine([c] + rest)
                 case Closer => c != '\n' && !(c == '*' && rest != "" && rest[0] == '/')
                 case Semicolon => c != ';'
                 case Backslash => c != '\\'
  {
    assert ([c] + rest)[1..] == rest;
  }

  lemma Around(m: Mark, q: char, inside: string)
    requires q == '`' || q == '\''
    ensures Free(m, [q] + inside + [q]) <==> Free(m, inside)
    ensures LastSafe([q] + inside + [q])
  {
    assert [q] + inside + [q] == [q] + (inside + [q]);
    FreeConcat(m, [q], inside + [q]);
    TrailingQuote(m, inside, q);
    assert [q][1..] == "";
  }

  lemma {:induction false} TrailingQuote(m: Mark, s: string, q: char)
    requires q == '`' || q == '\''
    ensures Free(m, s + [q]) <==> Free(m, s)
    decreases |s|
  {
    if s == "" {
      assert s + [q] == [q] + "";
      OneMore(m, q, "");
    } else {
      assert s + [q] == [s[0]] + (s[1..] + [q]) && s == [s[0]] + s[1..];
      TrailingQuote(m, s[1..], q);
      OneMore(m, s[0], s[1..] + [q]);
      OneMore(m, s[0], s[1..]);
    }
  }

  lemma IdentFree(m: Mark, id: string)
    ensures (Free(m, QuoteIdent(id)) <==> Free(m, id)) && LastSafe(QuoteIdent(id))
  {
    DoubledFree(m, id, '`');
    Around(m, '`', Replace(id, '`', ['`', '`']));
    assert QuoteIdent(id) == ['`'] + Replace(id, '`', ['`', '`']) + ['`'];
  }

  lemma StringFree(m: Mark, s: string)
    ensures (Free(m, EscapeString(s)) <==> Free(m, s)) && LastSafe(EscapeString(s))
  {
    var doubled := Replace(s, '\\', ['\\', '\\']);
    DoubledFree(m, s, '\\');
    DoubledFree(m, doubled, '\'');
    Around(m, '\'', Replace(doubled, '\'', ['\'', '\'']));
    assert EscapeString(s) == ['\''] + Replace(doubled, '\'', ['\'', '\'']) + ['\''];
  }

  lemma {:induction false} DigitsFree(m: Mark, n: nat)
    ensures Free(m, Digits(n)) && Digits(n) != "" && IsDigit(Digits(n)[0]) && LastSafe(Digits(n))
    decreases n
  {
    var last := [('0' as int + n % 10) as char];
    assert last[1..] == "" && Free(m, last);
    if n >= 10 {
      DigitsFree(m, n / 10);
      FreeConcat(m, Digits(n / 10), last);
    }
  }

  predicate ValueFree(m: Mark, v: Value) {
    v.Text? ==> Free(m, v.s)
  }

  lemma EscapedFree(m: Mark, v: Value)
    ensures (Free(m, EscapeValue(v)) <==> ValueFree(m, v)) && LastSafe(EscapeValue(v))
  {
    match v
    case Null =>
      assert Free(m, "NULL") by { Word(m, "NULL"); }
    case Number(n) =>
      if n < 0 {
        DigitsFree(m, -n);
        OneMore(m, '-', Digits(-n));
        assert "-" + Digits(-n) == ['-'] + Digits(-n);
      } else {
        DigitsFree(m, n);
      }
    case Text(s) =>
      StringFree(m, s);
  }

  /** Text without any character that a mark contains. */
  predicate Inert(s: string) {
    '-' !in s && '/' !in s && '*' !in s && '#' !in s && '\n' !in s && ';' !in s && '\\' !in s
  }

  lemma {:induction false} Word(m: Mark, s: string)
    requires Inert(s)
    ensures Free(m, s) && LastSafe(s)
    decreases |s|
  {
    if s != "" {
      Word(m, s[1..]);
      assert s == [s[0]] + s[1..];
      OneMore(m, s[0], s[1..]);
    }
  }

  lemma {:induction false} IdentsFree(m: Mark, columns: seq<string>)
    ensures (Free(m, PrintIdents(columns)) <==> forall c :: c in columns ==> Free(m, c))
    ensures LastSafe(PrintIdents(columns))
    decreases |columns|
  {
    hide QuoteIdent, Free;
    if columns == [] {
      Word(m, "");
    } else {
      IdentFree(m, columns[0]);
      assert columns == [columns[0]] + columns[1..];
      if |columns| > 1 {
        var more := PrintIdents(columns[1..]);
        IdentsFree(m, columns[1..]);
        Word(m, ", ");
        FreeConcat(m, ", ", more);
        FreeConcat(m, QuoteIdent(columns[0]), ", " + more);
        assert PrintIdents(columns) == QuoteIdent(columns[0]) + (", " + more);
        NotNothing(columns[1..]);
      }
    }
  }

  lemma NotNothing(columns: seq<string>)
    requires columns != []
    ensures PrintIdents(columns) != ""
  {
  }

  lemma {:induction false} ValuesFree(m: Mark, vs: seq<Value>)
    ensures (Free(m, PrintValues(vs)) <==> forall v :: v in vs ==> ValueFree(m, v))
    ensures LastSafe(PrintValues(vs))
    decreases |vs|
  {
    hide EscapeValue, Free, ValueFree;
    if vs == [] {
      Word(m, "");
    } else {
      EscapedFree(m, vs[0]);
      assert vs == [vs[0]] + vs[1..];
      if |vs| > 1 {
        var more := PrintValues(vs[1..]);
        ValuesFree(m, vs[1..]);
        Word(m, ", ");
        FreeConcat(m, ", ", more);
        FreeConcat(m, EscapeValue(vs[0]), ", " + more);
        assert PrintValues(vs) == EscapeValue(vs[0]) + (", " + more);
        LastOfTwo(EscapeValue(vs[0]) + ", ", more);
      }
    }
  }

  lemma LastOfTwo(a: string, b: string)
    requires LastSafe(a) && LastSafe(b)
    ensures LastSafe(a + b)
  {
  }

  lemma SetFree(m: Mark, d: Dialect, c: string)
    ensures (Free(m, PrintSet(d, c)) <==> Free(m, c)) && LastSafe(PrintSet(d, c))
  {
    hide QuoteIdent, Free, Inert;
    var id := QuoteIdent(c);
    var middle := if d == MySql then " = VALUES(" else " = excluded.";
    var end := if d == MySql then ")" else "";
    assert PrintSet(d, c) == id + (middle + (id + end));
    IdentFree(m, c);
    PunctuationIsInert();
    ValuesWordIsInert();
    ExcludedWordIsInert();
    Word(m, middle);
    Word(m, end);
    FreeConcat(m, id, end);
    FreeConcat(m, middle, id + end);
    FreeConcat(m, id, middle + (id + end));
    LastOfTwo(id, end);
    LastOfTwo(middle, id + end);
    LastOfTwo(id, middle + (id + end));
  }

  lemma InertConcat(a: string, b: string)
    requires Inert(a) && Inert(b)
    ensures Inert(a + b)
  {
  }

  lemma PunctuationIsInert()
    ensures Inert(")") && Inert("") && Inert(", ") && Inert(" (") && Inert(".")
  {
  }

  lemma ValuesWordIsInert()
    ensures Inert(" = VALUES(")
  {
  }

  lemma ExcludedWordIsInert()
    ensures Inert(" = excluded.")
  {
    assert " = excluded." == " = exc" + "luded.";
    InertConcat(" = exc", "luded.");
  }

  lemma DuplicateIsInert()
    ensures Inert(") ON DUPLICATE")
  {
    assert ") ON DUPLICATE" == ") ON DU" + "PLICATE";
    InertConcat(") ON DU", "PLICATE");
  }

  lemma KeyUpdateIsInert()
    ensures Inert(" KEY UPDATE ")
  {
    assert " KEY UPDATE " == " KEY U" + "PDATE ";
    InertConcat(" KEY U", "PDATE ");
  }

  lemma ConflictIsInert()
    ensures Inert(") ON CONFLICT")
  {
    assert ") ON CONFLICT" == ") ON CO" + "NFLICT";
    InertConcat(") ON CO", "NFLICT");
  }

  lemma DoUpdateIsInert()
    ensures Inert(" DO UPDATE SET ")
  {
    assert " DO UPDATE SET " == " DO UPD" + "ATE SET ";
    InertConcat(" DO UPD", "ATE SET ");
  }

  lemma ClauseInTwo(d: Dialect)
    ensures ConflictClause(d)
         == if d == MySql then ") ON DUPLICATE" + " KEY UPDATE " else ") ON CONFLICT" + " DO UPDATE SET "
  {
  }

  lemma ClauseIsInert(d: Dialect)
    ensures Inert(ConflictClause(d))
  {
    hide Inert, ConflictClause;
    ClauseInTwo(d);
    if d == MySql {
      DuplicateIsInert();
      KeyUpdateIsInert();
      InertConcat(") ON DUPLICATE", " KEY UPDATE ");
    } else {
      ConflictIsInert();
      DoUpdateIsInert();
      InertConcat(") ON CONFLICT", " DO UPDATE SET ");
    }
  }

  lemma InsertIntoIsInert()
    ensures Inert("INSERT INTO ")
  {
    assert "INSERT INTO " == "INSERT" + " INTO ";
    InertConcat("INSERT", " INTO ");
  }

  lemma HeadWordsAreInert()
    ensures Inert("INSERT INTO ") && Inert(") VALUES (") && Inert(" (")
  {
    InsertIntoIsInert();
    assert Inert(") VALUES (") by {
      assert ") VALUES (" == ") VAL" + "UES (";
      InertConcat(") VAL", "UES (");
    }
    PunctuationIsInert();
    hide Inert;
  }

  lemma {:induction false} SetsFree(m: Mark, d: Dialect, columns: seq<string>)
    ensures Free(m, PrintSets(d, columns)) <==> forall c :: c in columns ==> Free(m, c)
    ensures LastSafe(PrintSets(d, columns))
    decreases |columns|
  {
    hide PrintSet, Free;
    if columns == [] {
      Word(m, "");
    } else {
      SetFree(m, d, columns[0]);
      assert columns == [columns[0]] + columns[1..];
      if |columns| > 1 {
        var more := PrintSets(d, columns[1..]);
        SetsFree(m, d, columns[1..]);
        Word(m, ", ");
        FreeConcat(m, ", ", more);
        FreeConcat(m, PrintSet(d, columns[0]), ", " + more);
        assert PrintSets(d, columns) == PrintSet(d, columns[0]) + (", " + more);
        LastOfTwo(PrintSet(d, columns[0]) + ", ", more);
      }
    }
  }

  lemma TableFree(m: Mark, ref: TableRef)
    ensures Free(m, PrintTable(ref.database, ref.table))
       <==> Free(m, ref.table) && (ref.database.Some? ==> Free(m, ref.database.value))
    ensures LastSafe(PrintTable(ref.database, ref.table))
  {
    hide QuoteIdent, Free;
    IdentFree(m, ref.table);
    if ref.database.Some? {
      IdentFree(m, ref.database.value);
      Word(m, ".");
      FreeConcat(m, ".", QuoteIdent(ref.table));
      FreeConcat(m, QuoteIdent(ref.database.value), "." + QuoteIdent(ref.table));
      assert PrintTable(ref.database, ref.table) == QuoteIdent(ref.database.value) + ("." + QuoteIdent(ref.table));
      LastOfTwo(QuoteIdent(ref.database.value) + ".", QuoteIdent(ref.table));
    }
  }

  predicate NamesFree(m: Mark, ref: TableRef, columns: seq<string>) {
    && Free(m, ref.table) && (ref.database.Some? ==> Free(m, ref.database.value))
    && forall c :: c in columns ==> Free(m, c)
  }

  predicate AllValuesFree(m: Mark, vs: seq<Value>) {
    forall v :: v in vs ==> ValueFree(m, v)
  }

  function Head(ref: TableRef, columns: seq<string>): string {
    "INSERT INTO " + (PrintTable(ref.database, ref.table) + (" (" + (PrintIdents(columns) + ") VALUES (")))
  }

  function Tail(d: Dialect, columns: seq<string>): string {
    ConflictClause(d) + PrintSets(d, columns)
  }

  /** A printed statement without its semicolon. */
  function Body(d: Dialect, ref: TableRef, columns: seq<string>, vs: seq<Value>): string {
    Head(ref, columns) + (PrintValues(vs) + Tail(d, columns))
  }

  lemma InThree(d: Dialect, ref: TableRef, columns: seq<string>, vs: seq<Value>)
    ensures PrintUpsert(d, ref.database, ref.table, columns, vs) == Body(d, ref, columns, vs) + ";"
    ensures PrintUpsert(d, ref.database, ref.table, columns, vs)
         == Head(ref, columns) + (PrintValues(vs) + (Tail(d, columns) + ";"))
  {
    hide PrintTable, PrintIdents, PrintValues, PrintSets, ConflictClause;
    var t, i, v := PrintTable(ref.database, ref.table), PrintIdents(columns), PrintValues(vs);
    var tail := Tail(d, columns) + ";";
    assert ConflictClause(d) + (PrintSets(d, columns) + ";") == tail;
    assert i + (") VALUES (" + (v + tail)) == (i + ") VALUES (") + (v + tail);
    assert " (" + ((i + ") VALUES (") + (v + tail)) == (" (" + (i + ") VALUES (")) + (v + tail);
    assert t + ((" (" + (i + ") VALUES (")) + (v + tail)) == (t + (" (" + (i + ") VALUES ("))) + (v + tail);
    assert Head(ref, columns) + (v + tail) == (Head(ref, columns) + (v + Tail(d, columns))) + ";";
  }

  lemma HeadFree(m: Mark, ref: TableRef, columns: seq<string>)
    ensures (Free(m, Head(ref, columns)) <==> NamesFree(m, ref, columns)) && LastSafe(Head(ref, columns))
  {
    hide PrintTable, PrintIdents, Free, Inert;
    var t, i := PrintTable(ref.database, ref.table), PrintIdents(columns);
    TableFree(m, ref);
    IdentsFree(m, columns);
    HeadWordsAreInert();
    Word(m, "INSERT INTO ");
    Word(m, " (");
    Word(m, ") VALUES (");
    FreeConcat(m, i, ") VALUES (");
    FreeConcat(m, " (", i + ") VALUES (");
    FreeConcat(m, t, " (" + (i + ") VALUES ("));
    FreeConcat(m, "INSERT INTO ", t + (" (" + (i + ") VALUES (")));
    LastOfTwo("INSERT INTO " + t + " (" + i, ") VALUES (");
    assert Head(ref, columns) == ("INSERT INTO " + t + " (" + i) + ") VALUES (";
  }

  lemma TailFree(m: Mark, d: Dialect, columns: seq<string>)
    ensures (Free(m, Tail(d, columns)) <==> forall c :: c in columns ==> Free(m, c)) && LastSafe(Tail(d, columns))
  {
    hide PrintSets, Free, Inert;
    ClauseIsInert(d);
    SetsFree(m, d, columns);
    Word(m, ConflictClause(d));
    FreeConcat(m, ConflictClause(d), PrintSets(d, columns));
    LastOfTwo(ConflictClause(d), PrintSets(d, columns));
  }

  /** A mark is in a printed statement, its semicolon aside, exactly when it is in one of its names or texts. */
  lemma PrintedFree(m: Mark, d: Dialect, ref: TableRef, columns: seq<string>, vs: seq<Value>)
    ensures Free(m, Body(d, ref, columns, vs)) <==> NamesFree(m, ref, columns) && AllValuesFree(m, vs)
    ensures m == Opener || m == Closer ==>
              (Free(m, PrintUpsert(d, ref.database, ref.table, columns, vs)) <==> Free(m, Body(d, ref, columns, vs)))
  {
    hide PrintUpsert, Head, Tail, PrintValues, Free;
    InThree(d, ref, columns, vs);
    HeadFree(m, ref, columns);
    ValuesFree(m, vs);
    TailFree(m, d, columns);
    FreeConcat(m, PrintValues(vs), Tail(d, columns));
    FreeConcat(m, Head(ref, columns), PrintValues(vs) + Tail(d, columns));
    LastOfTwo(PrintValues(vs), Tail(d, columns));
    LastOfTwo(Head(ref, columns), PrintValues(vs) + Tail(d, columns));
    FreeConcat(m, Body(d, ref, columns, vs), ";");
    LoneSemicolon(m);
  }

  lemma LoneSemicolon(m: Mark)
    ensures m == Opener || m == Closer ==> Free(m, ";")
  {
    assert ";"[1..] == "";
  }

  /** The stripped statement still reads as an upsert. */
  predicate Parses(d: Dialect, ref: TableRef, columns: seq<string>, vs: seq<Value>) {
    ReadUpsert(d, Strip(PrintUpsert(d, ref.database, ref.table, columns, vs))).Some?
  }

  /** For names and texts in which no comment ends (no line end, no star before a slash), whatever they are: the
      statement still parses exactly when no comment opens in any of them. */
  lemma ParsesIffNoOpener(d: Dialect, ref: TableRef, columns: seq<string>, vs: seq<Value>)
    requires columns != [] && vs != []
    requires NamesFree(Closer, ref, columns) && AllValuesFree(Closer, vs)
    ensures Parses(d, ref, columns, vs) <==> NamesFree(Opener, ref, columns) && AllValuesFree(Opener, vs)
  {
    hide PrintUpsert, ReadUpsert;
    var text := PrintUpsert(d, ref.database, ref.table, columns, vs);
    PrintedFree(Closer, d, ref, columns, vs);
    PrintedFree(Opener, d, ref, columns, vs);
    RunsOffIff(text);
    if NoOpener(text) {
      StripClean(text);
      UpsertRoundTrip(d, ref.database, ref.table, columns, vs);
    } else {
      RunningOffIsNoUpsert(d, text);
    }
  }

  // ----- Which rows of texts survive stripping -----

  // A comment opened in one text can end in a later one; the texts in between are lost. This is what stripping the
  // printed list of values comes to, text by text.

  function Size(vs: seq<Value>): nat {
    if vs == [] then 0 else 1 + (if vs[0].Text? then |vs[0].s| else 0) + Size(vs[1..])
  }

  /** The rest of the text, and of the values, behind the end of a block comment. */
  function BlockEndIn(s: string, vs: seq<Value>): (r: Option<(string, seq<Value>)>)
    ensures r.Some? ==> |r.value.0| + Size(r.value.1) <= |s| + Size(vs)
    decreases |s| + Size(vs), 1
  {
    if s == "" then BlockEndOut(vs)
    else if |s| > 1 && s[0] == '*' && s[1] == '/' then Some((s[2..], vs))
    else BlockEndIn(s[1..], vs)
  }

  function BlockEndOut(vs: seq<Value>): (r: Option<(string, seq<Value>)>)
    ensures r.Some? ==> |r.value.0| + Size(r.value.1) <= Size(vs)
    decreases Size(vs), 0
  {
    if vs == [] then None
    else if vs[0].Text? then BlockEndIn(vs[0].s, vs[1..])
    else BlockEndOut(vs[1..])
  }

  /** The same from the next line end on. */
  function LineEndIn(s: string, vs: seq<Value>): (r: Option<(string, seq<Value>)>)
    ensures r.Some? ==> |r.value.0| + Size(r.value.1) <= |s| + Size(vs)
    ensures r.Some? && s != "" && s[0] != '\n' ==> |r.value.0| + Size(r.value.1) < |s| + Size(vs)
    decreases |s| + Size(vs), 1
  {
    if s == "" then LineEndOut(vs)
    else if s[0] == '\n' then Some((s, vs))
    else LineEndIn(s[1..], vs)
  }

  function LineEndOut(vs: seq<Value>): (r: Option<(string, seq<Value>)>)
    ensures r.Some? ==> |r.value.0| + Size(r.value.1) <= Size(vs)
    decreases Size(vs), 0
  {
    if vs == [] then None
    else if vs[0].Text? then LineEndIn(vs[0].s, vs[1..])
    else LineEndOut(vs[1..])
  }

  function Spaced(r: Option<(string, seq<Value>)>): Option<(string, seq<Value>)> {
    match r
    case None => None
    case Some((s, vs)) => Some((" " + s, vs))
  }

  /** What is left of a text and of the values behind it; None if a comment never ends. */
  function StripIn(s: string, vs: seq<Value>): Option<(string, seq<Value>)>
    decreases |s| + Size(vs), 1
  {
    if s == "" then
      match StripOut(vs)
      case None => None
      case Some(ws) => Some(("", ws))
    else if OpensBlock(s) then
      match BlockEndIn(s[2..], vs)
      case None => None
      case Some((t, ws)) => Spaced(StripIn(t, ws))
    else if OpensLine(s) then
      match LineEndIn(s, vs)
      case None => None
      case Some((t, ws)) => Spaced(StripIn(t, ws))
    else
      match StripIn(s[1..], vs)
      case None => None
      case Some((t, ws)) => Some(([s[0]] + t, ws))
  }

  function StripOut(vs: seq<Value>): Option<seq<Value>>
    decreases Size(vs), 0
  {
    if vs == [] then Some([])
    else if vs[0].Text? then
      match StripIn(vs[0].s, vs[1..])
      case None => None
      case Some((t, ws)) => Some([Text(t)] + ws)
    else
      match StripOut(vs[1..])
      case None => None
      case Some(ws) => Some([vs[0]] + ws)
  }

  /** What is printed behind a value: the other values and `end`. */
  function After(vs: seq<Value>, end: string): string {
    if vs == [] then end else ", " + (EscapeValue(vs[0]) + After(vs[1..], end))
  }

  /** What is printed from inside a text on. */
  function From(s: string, vs: seq<Value>, end: string): string {
    Escaped(s) + ("'" + After(vs, end))
  }

  lemma {:induction false} PrintedAsAfter(vs: seq<Value>, end: string)
    requires vs != []
    ensures PrintValues(vs) + end == EscapeValue(vs[0]) + After(vs[1..], end)
    decreases |vs|
  {
    hide EscapeValue;
    if |vs| > 1 {
      PrintedAsAfter(vs[1..], end);
      assert PrintValues(vs) + end == EscapeValue(vs[0]) + (", " + (PrintValues(vs[1..]) + end));
    } else {
      assert vs[1..] == [];
    }
  }

  lemma TextFirst(s: string, vs: seq<Value>, end: string)
    ensures EscapeValue(Text(s)) + After(vs, end) == "'" + From(s, vs, end)
  {
    hide Escaped, After;
  }

  lemma FromCons(s: string, vs: seq<Value>, end: string)
    requires s != ""
    ensures From(s, vs, end) == EscapedChar(s[0]) + From(s[1..], vs, end)
  {
    hide Escaped, After;
    EscapeByChar(s);
  }

  lemma FromNothing(vs: seq<Value>, end: string)
    ensures From("", vs, end) == "'" + After(vs, end)
  {
    ReplaceNothing();
    assert Escaped("") == "";
  }

  /** The first character printed from inside a text on is that of the text, or its closing quote. */
  lemma FromStarts(s: string, vs: seq<Value>, end: string)
    ensures var f := From(s, vs, end); f != "" && f[0] == if s == "" then '\'' else s[0]
  {
    if s == "" {
      FromNothing(vs, end);
    } else {
      FromCons(s, vs, end);
    }
  }

  lemma {:induction false} BlockSkips(a: string, rest: string)
    requires '*' !in a
    ensures AfterBlock(a + rest) == AfterBlock(rest)
    decreases |a|
  {
    if a == "" {
      assert a + rest == rest;
    } else {
      assert (a + rest)[1..] == a[1..] + rest;
      BlockSkips(a[1..], rest);
    }
  }

  lemma {:induction false} LineSkips(a: string, rest: string)
    requires '\n' !in a
    ensures FromNewline(a + rest) == FromNewline(rest)
    decreases |a|
  {
    if a == "" {
      assert a + rest == rest;
    } else {
      assert (a + rest)[1..] == a[1..] + rest;
      LineSkips(a[1..], rest);
    }
  }

  /** Values other than texts print without stars and line ends. */
  lemma PlainValue(v: Value)
    requires !v.Text?
    ensures '*' !in EscapeValue(v) && '\n' !in EscapeValue(v)
  {
    if v.Number? {
      DigitsOnly(if v.n < 0 then -v.n else v.n);
    }
  }

  lemma {:induction false} DigitsOnly(n: nat)
    ensures '*' !in Digits(n) && '\n' !in Digits(n)
    decreases n
  {
    if n >= 10 {
      DigitsOnly(n / 10);
    }
  }

  function Rest(r: Option<(string, seq<Value>)>, end: string): string {
    if r.Some? then From(r.value.0, r.value.1, end) else ""
  }

  lemma {:induction false} BlockEndsIn(s: string, vs: seq<Value>, end: string)
    requires NoCloser(end)
    ensures AfterBlock(From(s, vs, end)) == Rest(BlockEndIn(s, vs), end)
    decreases |s| + Size(vs), 1
  {
    if s == "" {
      FromNothing(vs, end);
      hide After, From;
      BlockSkips("'", After(vs, end));
      BlockEndsOut(vs, end);
    } else {
      var more := From(s[1..], vs, end);
      FromCons(s, vs, end);
      FromStarts(s[1..], vs, end);
      if |s| > 1 && s[0] == '*' && s[1] == '/' {
        FromCons(s[1..], vs, end);
        hide From;
        assert From(s, vs, end)[2..] == From(s[1..][1..], vs, end);
        assert s[1..][1..] == s[2..];
      } else {
        BlockEndsIn(s[1..], vs, end);
        hide From;
        if s[0] == '*' {
          assert ([s[0]] + more)[1..] == more;
        } else {
          BlockSkips(EscapedChar(s[0]), more);
        }
      }
    }
  }

  lemma {:induction false} BlockEndsOut(vs: seq<Value>, end: string)
    requires NoCloser(end)
    ensures AfterBlock(After(vs, end)) == Rest(BlockEndOut(vs), end)
    decreases Size(vs), 0
  {
    if vs == [] {
      NothingCloses(end);
    } else {
      var more := After(vs[1..], end);
      BlockSkips(", ", EscapeValue(vs[0]) + more);
      if vs[0].Text? {
        TextFirst(vs[0].s, vs[1..], end);
        hide From, EscapeValue;
        BlockSkips("'", From(vs[0].s, vs[1..], end));
        BlockEndsIn(vs[0].s, vs[1..], end);
      } else {
        PlainValue(vs[0]);
        hide From, EscapeValue;
        BlockSkips(EscapeValue(vs[0]), more);
        BlockEndsOut(vs[1..], end);
      }
    }
  }

  lemma {:induction false} LineEndsIn(s: string, vs: seq<Value>, end: string)
    requires NoCloser(end)
    ensures FromNewline(From(s, vs, end)) == Rest(LineEndIn(s, vs), end)
    decreases |s| + Size(vs), 1
  {
    if s == "" {
      FromNothing(vs, end);
      hide After, From;
      LineSkips("'", After(vs, end));
      LineEndsOut(vs, end);
    } else {
      var more := From(s[1..], vs, end);
      FromCons(s, vs, end);
      FromStarts(s, vs, end);
      if s[0] != '\n' {
        LineEndsIn(s[1..], vs, end);
        hide From;
        LineSkips(EscapedChar(s[0]), more);
      }
    }
  }

  lemma {:induction false} LineEndsOut(vs: seq<Value>, end: string)
    requires NoCloser(end)
    ensures FromNewline(After(vs, end)) == Rest(LineEndOut(vs), end)
    decreases Size(vs), 0
  {
    if vs == [] {
      NothingCloses(end);
    } else {
      var more := After(vs[1..], end);
      LineSkips(", ", EscapeValue(vs[0]) + more);
      if vs[0].Text? {
        TextFirst(vs[0].s, vs[1..], end);
        hide From, EscapeValue;
        LineSkips("'", From(vs[0].s, vs[1..], end));
        LineEndsIn(vs[0].s, vs[1..], end);
      } else {
        PlainValue(vs[0]);
        hide From, EscapeValue;
        LineSkips(EscapeValue(vs[0]), more);
        LineEndsOut(vs[1..], end);
      }
    }
  }

  /** `text` strips to `to`, or runs off. */
  ghost predicate StripsTo(text: string, to: Option<string>) {
    if to.Some? then Strip(text) == to.value && !RunsOff(text) else RunsOff(text)
  }

  function FromOf(r: Option<(string, seq<Value>)>, end: string): Option<string> {
    if r.Some? then Some(From(r.value.0, r.value.1, end)) else None
  }

  function AfterOf(r: Option<seq<Value>>, end: string): Option<string> {
    if r.Some? then Some(After(r.value, end)) else None
  }

  lemma Prefixed(a: string, text: string, to: Option<string>)
    requires NoOpener(a) && Apart(a, text) && StripsTo(text, to)
    ensures StripsTo(a + text, if to.Some? then Some(a + to.value) else None)
  {
    StripConcat(a, text);
  }

  /** A comment that ends at `rest`, which is not empty unless it never ends. */
  lemma Commented(text: string, rest: string, to: Option<string>)
    requires || (OpensBlock(text) && AfterBlock(text[2..]) == rest)
             || (!OpensBlock(text) && OpensLine(text) && FromNewline(text) == rest)
    requires if rest == "" then to == None else StripsTo(rest, to)
    ensures StripsTo(text, if to.Some? then Some(" " + to.value) else None)
  {
  }

  lemma SpacedFrom(r: Option<(string, seq<Value>)>, end: string)
    ensures FromOf(Spaced(r), end) == if r.Some? then Some(" " + FromOf(r, end).value) else None
  {
    if r.Some? {
      var s := " " + r.value.0;
      assert s[1..] == r.value.0;
      FromCons(s, r.value.1, end);
    }
  }

  lemma {:induction false} StripsIn(s: string, vs: seq<Value>, end: string)
    requires NoCloser(end) && NoOpener(end)
    ensures StripsTo(From(s, vs, end), FromOf(StripIn(s, vs), end))
    decreases |s| + Size(vs), 1
  {
    hide StripsTo;
    if s == "" {
      FromNothing(vs, end);
      StripsOut(vs, end);
      if StripOut(vs).Some? {
        FromNothing(StripOut(vs).value, end);
      }
      hide From, After;
      QuoteIsFree();
      Prefixed("'", After(vs, end), AfterOf(StripOut(vs), end));
    } else if OpensBlock(s) {
      BlockInText(s, vs, end);
      BlockEndsIn(s[2..], vs, end);
      var r := BlockEndIn(s[2..], vs);
      StripsBehind(r, s, vs, end);
    } else if OpensLine(s) {
      LineInText(s, vs, end);
      LineEndsIn(s, vs, end);
      var r := LineEndIn(s, vs);
      StripsBehind(r, s, vs, end);
    } else {
      StripsIn(s[1..], vs, end);
      PlainCharacter(s, vs, end);
      Prefixed(EscapedChar(s[0]), From(s[1..], vs, end), FromOf(StripIn(s[1..], vs), end));
      if StripIn(s[1..], vs).Some? {
        var (t, ws) := StripIn(s[1..], vs).value;
        assert ([s[0]] + t)[1..] == t;
        FromCons([s[0]] + t, ws, end);
      }
    }
  }

  /** What stripping does behind a comment that was opened in the text. */
  lemma {:induction false} StripsBehind(r: Option<(string, seq<Value>)>, s: string, vs: seq<Value>, end: string)
    requires NoCloser(end) && NoOpener(end)
    requires r.Some? ==> |r.value.0| + Size(r.value.1) < |s| + Size(vs)
    requires var text := From(s, vs, end);
             || (OpensBlock(text) && AfterBlock(text[2..]) == Rest(r, end))
             || (!OpensBlock(text) && OpensLine(text) && FromNewline(text) == Rest(r, end))
    ensures StripsTo(From(s, vs, end), FromOf(if r.Some? then Spaced(StripIn(r.value.0, r.value.1)) else None, end))
    decreases |s| + Size(vs), 0
  {
    hide StripsTo;
    if r.Some? {
      StripsIn(r.value.0, r.value.1, end);
      FromStarts(r.value.0, r.value.1, end);
      var behind := StripIn(r.value.0, r.value.1);
      SpacedFrom(behind, end);
      hide From, StripIn;
      Commented(From(s, vs, end), Rest(r, end), FromOf(behind, end));
    } else {
      hide From;
      Commented(From(s, vs, end), "", None);
    }
  }

  lemma QuoteIsFree()
    ensures NoOpener("'") && forall text :: Apart("'", text)
  {
    assert "'"[1..] == "";
  }

  lemma BlockInText(s: string, vs: seq<Value>, end: string)
    requires OpensBlock(s)
    ensures OpensBlock(From(s, vs, end)) && From(s, vs, end)[2..] == From(s[2..], vs, end)
  {
    FromCons(s, vs, end);
    FromCons(s[1..], vs, end);
    assert s[1..][1..] == s[2..];
  }

  lemma LineInText(s: string, vs: seq<Value>, end: string)
    requires !OpensBlock(s) && OpensLine(s)
    ensures !OpensBlock(From(s, vs, end)) && OpensLine(From(s, vs, end))
  {
    FromCons(s, vs, end);
    FromStarts(s[1..], vs, end);
  }

  lemma PlainCharacter(s: string, vs: seq<Value>, end: string)
    requires s != "" && !OpensBlock(s) && !OpensLine(s)
    ensures From(s, vs, end) == EscapedChar(s[0]) + From(s[1..], vs, end)
    ensures NoOpener(EscapedChar(s[0])) && Apart(EscapedChar(s[0]), From(s[1..], vs, end))
  {
    FromCons(s, vs, end);
    FromStarts(s[1..], vs, end);
    hide From;
    var e := EscapedChar(s[0]);
    if |e| == 2 {
      assert e[1..][1..] == "";
    } else {
      assert e[1..] == "";
    }
  }

  lemma {:induction false} StripsOut(vs: seq<Value>, end: string)
    requires NoCloser(end) && NoOpener(end)
    ensures StripsTo(After(vs, end), AfterOf(StripOut(vs), end))
    decreases Size(vs), 0
  {
    if vs == [] {
      StripClean(end);
    } else {
      hide StripsTo;
      StripsValue(vs, end);
      var first := EscapeValue(vs[0]) + After(vs[1..], end);
      CommaIsFree();
      hide From, After, EscapeValue, StripOut;
      Prefixed(", ", first, FirstOf(StripOut(vs), end));
      FirstIsAfter(vs, end);
      if StripOut(vs).Some? {
        StripOutKeepsSome(vs);
        FirstIsAfter(StripOut(vs).value, end);
      }
    }
  }

  lemma CommaIsFree()
    ensures NoOpener(", ") && forall text :: Apart(", ", text)
  {
    assert ", "[1..] == " " && " "[1..] == "";
  }

  lemma StripOutKeepsSome(vs: seq<Value>)
    requires vs != [] && StripOut(vs).Some?
    ensures StripOut(vs).value != []
  {
  }

  /** A list of values as it is printed, without the comma before it. */
  function FirstOf(r: Option<seq<Value>>, end: string): Option<string> {
    if r.Some? && r.value != [] then Some(EscapeValue(r.value[0]) + After(r.value[1..], end)) else None
  }

  lemma FirstIsAfter(vs: seq<Value>, end: string)
    requires vs != []
    ensures After(vs, end) == ", " + FirstOf(Some(vs), end).value
  {
  }

  lemma {:induction false} StripsValue(vs: seq<Value>, end: string)
    requires vs != [] && NoCloser(end) && NoOpener(end)
    ensures StripsTo(EscapeValue(vs[0]) + After(vs[1..], end), FirstOf(StripOut(vs), end))
    decreases Size(vs), 0, 0
  {
    hide StripsTo;
    var v, rest := vs[0], vs[1..];
    if v.Text? {
      StripsIn(v.s, rest, end);
      TextFirst(v.s, rest, end);
      QuoteIsFree();
      var r := StripIn(v.s, rest);
      if r.Some? {
        TextFirst(r.value.0, r.value.1, end);
        assert ([Text(r.value.0)] + r.value.1)[1..] == r.value.1;
      }
      hide From, After, EscapeValue, StripIn;
      Prefixed("'", From(v.s, rest, end), FromOf(r, end));
    } else {
      StripsOut(rest, end);
      EscapedFree(Opener, v);
      var r := StripOut(rest);
      if r.Some? {
        assert ([v] + r.value)[1..] == r.value;
      }
      hide After, EscapeValue;
      Prefixed(EscapeValue(v), After(rest, end), AfterOf(r, end));
    }
  }

  /** No comment opens or ends in a name. */
  predicate PlainNames(ref: TableRef, columns: seq<string>) {
    NamesFree(Opener, ref, columns) && NamesFree(Closer, ref, columns)
  }

  /** For plain names and any values: a printed statement strips to the statement of the stripped values, or a comment
      runs off its end. */
  lemma StripsToStatement(d: Dialect, ref: TableRef, columns: seq<string>, vs: seq<Value>)
    requires PlainNames(ref, columns) && vs != []
    ensures StripsTo(PrintUpsert(d, ref.database, ref.table, columns, vs),
                     match StripOut(vs)
                     case None => None
                     case Some(ws) => Some(PrintUpsert(d, ref.database, ref.table, columns, ws)))
    ensures StripOut(vs).Some? ==> StripOut(vs).value != []
  {
    var head, end := Head(ref, columns), Tail(d, columns) + ";";
    HeadFree(Opener, ref, columns);
    EndIsPlain(d, ref, columns);
    PrintedAsAfter(vs, end);
    StripsValue(vs, end);
    InThree(d, ref, columns, vs);
    if StripOut(vs).Some? {
      StripOutKeepsSome(vs);
      PrintedAsAfter(StripOut(vs).value, end);
      InThree(d, ref, columns, StripOut(vs).value);
    }
    hide StripsTo, Head, Tail, PrintUpsert, After, EscapeValue, PrintValues, StripOut;
    Prefixed(head, PrintValues(vs) + end, FirstOf(StripOut(vs), end));
  }

  lemma EndIsPlain(d: Dialect, ref: TableRef, columns: seq<string>)
    requires PlainNames(ref, columns)
    ensures NoOpener(Tail(d, columns) + ";") && NoCloser(Tail(d, columns) + ";")
  {
    hide Tail;
    TailFree(Opener, d, columns);
    TailFree(Closer, d, columns);
    LoneSemicolon(Opener);
    LoneSemicolon(Closer);
    FreeConcat(Opener, Tail(d, columns), ";");
    FreeConcat(Closer, Tail(d, columns), ";");
  }

  /** For plain names and any values: the statement still parses exactly when every comment that opens in a text ends
      in it or in a later text of the row. */
  lemma ParsesIff(d: Dialect, ref: TableRef, columns: seq<string>, vs: seq<Value>)
    requires PlainNames(ref, columns) && columns != [] && vs != []
    ensures Parses(d, ref, columns, vs) <==> StripOut(vs).Some?
  {
    hide PrintUpsert, ReadUpsert, StripOut;
    StripsToStatement(d, ref, columns, vs);
    match StripOut(vs) {
      case None =>
        RunningOffIsNoUpsert(d, PrintUpsert(d, ref.database, ref.table, columns, vs));
      case Some(ws) =>
        UpsertRoundTrip(d, ref.database, ref.table, columns, ws);
    }
  }

  // ----- When a statement looks like several -----

  lemma {:induction false} NoSemicolonIsOne(s: string, prev: char, quote: Option<char>, depth: int)
    requires ';' !in s
    ensures !Multiple(s, prev, quote, depth)
    decreases |s|
  {
    if s != "" {
      var c := s[0];
      NoSemicolonIsOne(s[1..], c, if quote.Some? then (if c == quote.value && prev != '\\' then None else quote)
                                  else if c == '\'' || c == '"' || c == '`' then Some(c) else None,
                       if quote.Some? then depth else if c == '(' then depth + 1
                       else if c == ')' then depth - 1 else depth);
    }
  }

  /** Outside quotes there is no semicolon in `s`, wherever it stands. */
  ghost predicate Calm(s: string) {
    forall prev, depth :: !Multiple(s, prev, None, depth)
  }

  predicate NoQuote(s: string) {
    '\'' !in s && '"' !in s && '`' !in s && ';' !in s
  }

  lemma {:induction false} CalmSyntax(a: string, rest: string)
    requires NoQuote(a) && Calm(rest)
    ensures Calm(a + rest)
    decreases |a|
  {
    if a == "" {
      assert a + rest == rest;
    } else {
      assert (a + rest)[1..] == a[1..] + rest;
      CalmSyntax(a[1..], rest);
    }
  }

  lemma OneInside(c: char, more: string, prev: char, q: char, depth: int)
    ensures Multiple([c] + more, prev, Some(q), depth)
         == Multiple(more, c, if c == q && prev != '\\' then None else Some(q), depth)
    ensures q == '\'' || q == '`' ==> Multiple([q] + more, prev, None, depth) == Multiple(more, q, Some(q), depth)
  {
    assert ([c] + more)[1..] == more && ([q] + more)[1..] == more;
  }

  /** A quoted text without backslashes is left again where it ends. */
  lemma {:induction false} ThroughQuoted(s: string, q: char, rest: string, prev: char, depth: int)
    requires '\\' !in s && prev != '\\' && (q == '\'' || q == '`')
    ensures Multiple(Replace(s, q, [q, q]) + ([q] + rest), prev, Some(q), depth) == Multiple(rest, q, None, depth)
    decreases |s|
  {
    hide Multiple;
    if s == "" {
      assert Replace(s, q, [q, q]) + ([q] + rest) == [q] + rest;
      OneInside(q, rest, prev, q, depth);
    } else {
      assert s == [s[0]] + s[1..];
      var more := Replace(s[1..], q, [q, q]) + ([q] + rest);
      ThroughQuoted(s[1..], q, rest, s[0], depth);
      var all := Replace(s, q, [q, q]) + ([q] + rest);
      if s[0] == q {
        assert all == [q] + ([q] + more);
        OneInside(q, [q] + more, prev, q, depth);
        OneInside(q, more, q, q, depth);
      } else {
        assert all == [s[0]] + more;
        OneInside(s[0], more, prev, q, depth);
      }
    }
  }

  lemma CalmQuoted(s: string, q: char, rest: string)
    requires '\\' !in s && Calm(rest) && (q == '\'' || q == '`')
    ensures Calm([q] + (Replace(s, q, [q, q]) + ([q] + rest)))
  {
    var inside := Replace(s, q, [q, q]) + ([q] + rest);
    assert ([q] + inside)[1..] == inside;
    forall prev, depth ensures !Multiple([q] + inside, prev, None, depth) {
      ThroughQuoted(s, q, rest, q, depth);
    }
  }

  lemma CalmIdent(id: string, rest: string)
    requires '\\' !in id && Calm(rest)
    ensures Calm(QuoteIdent(id) + rest)
  {
    hide Calm;
    CalmQuoted(id, '`', rest);
    assert ['`', '`'] == "``";
    assert QuoteIdent(id) + rest == ['`'] + (Replace(id, '`', ['`', '`']) + (['`'] + rest));
  }

  lemma CalmValue(v: Value, rest: string)
    requires ValueFree(Backslash, v) && Calm(rest)
    ensures Calm(EscapeValue(v) + rest)
  {
    hide Calm;
    if v.Text? {
      DoublingIsVisible(v.s);
      CalmQuoted(v.s, '\'', rest);
      assert ['\'', '\''] == "''";
      assert EscapeValue(v) + rest == ['\''] + (Replace(v.s, '\'', ['\'', '\'']) + (['\''] + rest));
    } else {
      PlainValueHasNoQuote(v);
      CalmSyntax(EscapeValue(v), rest);
    }
  }

  lemma PlainValueHasNoQuote(v: Value)
    requires !v.Text?
    ensures NoQuote(EscapeValue(v))
  {
    if v.Number? {
      DigitsHaveNoQuote(if v.n < 0 then -v.n else v.n);
    }
  }

  lemma {:induction false} DigitsHaveNoQuote(n: nat)
    ensures NoQuote(Digits(n))
    decreases n
  {
    if n >= 10 {
      DigitsHaveNoQuote(n / 10);
    }
  }

  lemma {:induction false} CalmIdents(columns: seq<string>, rest: string)
    requires (forall c :: c in columns ==> '\\' !in c) && Calm(rest)
    ensures Calm(PrintIdents(columns) + rest)
    decreases |columns|
  {
    hide Calm, QuoteIdent;
    if columns == [] {
      assert PrintIdents(columns) + rest == rest;
    } else if |columns| == 1 {
      CalmIdent(columns[0], rest);
    } else {
      CalmIdents(columns[1..], rest);
      var more := PrintIdents(columns[1..]) + rest;
      CommaHasNoQuote();
      CalmSyntax(", ", more);
      CalmIdent(columns[0], ", " + more);
      assert PrintIdents(columns) + rest == QuoteIdent(columns[0]) + (", " + more);
    }
  }

  lemma CommaHasNoQuote()
    ensures NoQuote(", ") && NoQuote(".") && NoQuote("") && NoQuote(" (") && NoQuote(")")
  {
  }

  lemma {:induction false} CalmValues(vs: seq<Value>, rest: string)
    requires AllValuesFree(Backslash, vs) && Calm(rest)
    ensures Calm(PrintValues(vs) + rest)
    decreases |vs|
  {
    hide Calm, EscapeValue, ValueFree;
    if vs == [] {
      assert PrintValues(vs) + rest == rest;
    } else if |vs| == 1 {
      assert vs[0] in vs;
      CalmValue(vs[0], rest);
    } else {
      assert vs[0] in vs && forall v :: v in vs[1..] ==> v in vs;
      CalmValues(vs[1..], rest);
      var more := PrintValues(vs[1..]) + rest;
      CommaHasNoQuote();
      CalmSyntax(", ", more);
      CalmValue(vs[0], ", " + more);
      assert PrintValues(vs) + rest == EscapeValue(vs[0]) + (", " + more);
    }
  }

  lemma SetWordsHaveNoQuote()
    ensures NoQuote(" = VALUES(") && NoQuote(" = excluded.")
  {
    assert " = excluded." == " = exc" + "luded.";
  }

  lemma SetThen(d: Dialect, c: string, middle: string, end: string, rest: string)
    requires middle == if d == MySql then " = VALUES(" else " = excluded."
    requires end == if d == MySql then ")" else ""
    ensures PrintSet(d, c) + rest == QuoteIdent(c) + (middle + (QuoteIdent(c) + (end + rest)))
  {
    hide QuoteIdent;
    var id := QuoteIdent(c);
    assert PrintSet(d, c) == id + middle + id + end;
    assert id + middle + id + end + rest == id + (middle + (id + (end + rest)));
  }

  lemma CalmSet(d: Dialect, c: string, rest: string)
    requires '\\' !in c && Calm(rest)
    ensures Calm(PrintSet(d, c) + rest)
  {
    hide Calm, QuoteIdent, NoQuote, PrintSet;
    var id := QuoteIdent(c);
    var middle := if d == MySql then " = VALUES(" else " = excluded.";
    var end := if d == MySql then ")" else "";
    CommaHasNoQuote();
    SetWordsHaveNoQuote();
    CalmSyntax(end, rest);
    CalmIdent(c, end + rest);
    CalmSyntax(middle, id + (end + rest));
    CalmIdent(c, middle + (id + (end + rest)));
    SetThen(d, c, middle, end, rest);
  }

  lemma {:induction false} CalmSets(d: Dialect, columns: seq<string>, rest: string)
    requires (forall c :: c in columns ==> '\\' !in c) && Calm(rest)
    ensures Calm(PrintSets(d, columns) + rest)
    decreases |columns|
  {
    hide Calm, PrintSet;
    if columns == [] {
      assert PrintSets(d, columns) + rest == rest;
    } else if |columns| == 1 {
      CalmSet(d, columns[0], rest);
    } else {
      CalmSets(d, columns[1..], rest);
      var more := PrintSets(d, columns[1..]) + rest;
      CommaHasNoQuote();
      CalmSyntax(", ", more);
      CalmSet(d, columns[0], ", " + more);
      assert PrintSets(d, columns) + rest == PrintSet(d, columns[0]) + (", " + more);
    }
  }

  lemma CalmTable(ref: TableRef, rest: string)
    requires '\\' !in ref.table && (ref.database.Some? ==> '\\' !in ref.database.value) && Calm(rest)
    ensures Calm(PrintTable(ref.database, ref.table) + rest)
  {
    hide Calm, QuoteIdent;
    CalmIdent(ref.table, rest);
    if ref.database.Some? {
      CommaHasNoQuote();
      CalmSyntax(".", QuoteIdent(ref.table) + rest);
      CalmIdent(ref.database.value, "." + (QuoteIdent(ref.table) + rest));
      assert PrintTable(ref.database, ref.table) + rest
          == QuoteIdent(ref.database.value) + ("." + (QuoteIdent(ref.table) + rest));
    }
  }

  lemma InsertHasNoQuote()
    ensures NoQuote("INSERT INTO ") && NoQuote(") VALUES (")
  {
    assert "INSERT INTO " == "INSERT" + " INTO ";
    assert ") VALUES (" == ") VAL" + "UES (";
  }

  lemma NoQuoteConcat(a: string, b: string)
    requires NoQuote(a) && NoQuote(b)
    ensures NoQuote(a + b)
  {
  }

  lemma DuplicateHasNoQuote()
    ensures NoQuote(") ON DUPLICATE")
  {
    assert ") ON DUPLICATE" == ") ON DU" + "PLICATE";
    NoQuoteConcat(") ON DU", "PLICATE");
  }

  lemma KeyUpdateHasNoQuote()
    ensures NoQuote(" KEY UPDATE ")
  {
    assert " KEY UPDATE " == " KEY U" + "PDATE ";
    NoQuoteConcat(" KEY U", "PDATE ");
  }

  lemma ConflictHasNoQuote()
    ensures NoQuote(") ON CONFLICT")
  {
    assert ") ON CONFLICT" == ") ON CO" + "NFLICT";
    NoQuoteConcat(") ON CO", "NFLICT");
  }

  lemma DoUpdateHasNoQuote()
    ensures NoQuote(" DO UPDATE SET ")
  {
    assert " DO UPDATE SET " == " DO UPD" + "ATE SET ";
    NoQuoteConcat(" DO UPD", "ATE SET ");
  }

  lemma ClauseHasNoQuote(d: Dialect)
    ensures NoQuote(ConflictClause(d))
  {
    hide NoQuote, ConflictClause;
    ClauseInTwo(d);
    if d == MySql {
      DuplicateHasNoQuote();
      KeyUpdateHasNoQuote();
      NoQuoteConcat(") ON DUPLICATE", " KEY UPDATE ");
    } else {
      ConflictHasNoQuote();
      DoUpdateHasNoQuote();
      NoQuoteConcat(") ON CONFLICT", " DO UPDATE SET ");
    }
  }

  lemma CalmNothing()
    ensures Calm("")
  {
  }

  lemma CalmTail(d: Dialect, columns: seq<string>)
    requires forall c :: c in columns ==> '\\' !in c
    ensures Calm(Tail(d, columns))
  {
    hide Calm, PrintSets, ConflictClause, NoQuote;
    CalmNothing();
    ClauseHasNoQuote(d);
    CalmSets(d, columns, "");
    assert PrintSets(d, columns) + "" == PrintSets(d, columns);
    CalmSyntax(ConflictClause(d), PrintSets(d, columns));
  }

  lemma CalmHead(ref: TableRef, columns: seq<string>, rest: string)
    requires NamesFree(Backslash, ref, columns) && Calm(rest)
    ensures Calm(Head(ref, columns) + rest)
  {
    hide Calm, PrintTable, PrintIdents, NoQuote;
    var t, i := PrintTable(ref.database, ref.table), PrintIdents(columns);
    InsertHasNoQuote();
    CommaHasNoQuote();
    CalmSyntax(") VALUES (", rest);
    CalmIdents(columns, ") VALUES (" + rest);
    CalmSyntax(" (", i + (") VALUES (" + rest));
    CalmTable(ref, " (" + (i + (") VALUES (" + rest)));
    CalmSyntax("INSERT INTO ", t + (" (" + (i + (") VALUES (" + rest))));
    HeadThen(t, i, rest);
  }

  lemma HeadThen(t: string, i: string, rest: string)
    ensures ("INSERT INTO " + (t + (" (" + (i + ") VALUES (")))) + rest
         == "INSERT INTO " + (t + (" (" + (i + (") VALUES (" + rest))))
  {
    assert (i + ") VALUES (") + rest == i + (") VALUES (" + rest);
    assert (" (" + (i + ") VALUES (")) + rest == " (" + (i + (") VALUES (" + rest));
    assert (t + (" (" + (i + ") VALUES ("))) + rest == t + (" (" + (i + (") VALUES (" + rest)));
  }

  lemma CalmBody(d: Dialect, ref: TableRef, columns: seq<string>, vs: seq<Value>)
    requires NamesFree(Backslash, ref, columns) && AllValuesFree(Backslash, vs)
    ensures Calm(Body(d, ref, columns, vs))
  {
    hide Calm, Head, Tail, PrintValues;
    CalmTail(d, columns);
    CalmValues(vs, Tail(d, columns));
    CalmHead(ref, columns, PrintValues(vs) + Tail(d, columns));
  }

  /** No backslash in names and texts, or no semicolon. */
  predicate Unmistakable(ref: TableRef, columns: seq<string>, vs: seq<Value>) {
    || (NamesFree(Backslash, ref, columns) && AllValuesFree(Backslash, vs))
    || (NamesFree(Semicolon, ref, columns) && AllValuesFree(Semicolon, vs))
  }

  lemma StatementIsOne(d: Dialect, ref: TableRef, columns: seq<string>, vs: seq<Value>)
    requires Unmistakable(ref, columns, vs)
    ensures !LooksMultiple(PrintUpsert(d, ref.database, ref.table, columns, vs))
  {
    hide PrintUpsert, Body;
    var body := Body(d, ref, columns, vs);
    InThree(d, ref, columns, vs);
    assert TrimEnd(body + ";") == body + ";" && DropSemicolon(body + ";") == body;
    if NamesFree(Backslash, ref, columns) && AllValuesFree(Backslash, vs) {
      CalmBody(d, ref, columns, vs);
    } else {
      PrintedFree(Semicolon, d, ref, columns, vs);
      NoSemicolonIsOne(body, ' ', None, 0);
    }
  }

  // ----- Statements that name files -----

  const FILE_PHRASES := ["into outfile", "into dumpfile", "load data"]
  const LOCKING := "lock in share mode"

  /** A character that stands in no such phrase. */
  predicate Separates(c: char) {
    c == '`' || c == '\'' || c == '\\' || c == ',' || c == '.' || c == '(' || c == ')' || c == ';'
  }

  predicate Phrase(phrase: string) {
    phrase in FILE_PHRASES || phrase == LOCKING
  }

  /** Neither "fi" nor "oa" nor "ck" is in `s`, in whatever case. */
  predicate NoPair(s: string) {
    |s| < 2 || (!Pair(s[0], s[1]) && NoPair(s[1..]))
  }

  predicate Pair(x: char, y: char) {
    || (LowerChar(x) == 'f' && LowerChar(y) == 'i')
    || (LowerChar(x) == 'o' && LowerChar(y) == 'a')
    || (LowerChar(x) == 'c' && LowerChar(y) == 'k')
  }

  lemma PhraseHasPair(phrase: string)
    requires Phrase(phrase)
    ensures exists k :: 0 <= k < |phrase| - 1 && Pair(phrase[k], phrase[k + 1])
  {
    var o, u, l := FILE_PHRASES[0], FILE_PHRASES[1], FILE_PHRASES[2];
    assert Pair(o[8], o[9]) && Pair(u[9], u[10]) && Pair(l[1], l[2]) && Pair(LOCKING[2], LOCKING[3]);
  }

  lemma PhraseIsPlain(phrase: string)
    requires Phrase(phrase)
    ensures phrase != "" && forall c :: c in phrase ==> LowerChar(c) == c && !Separates(c)
  {
    var o, u, l := FILE_PHRASES[0], FILE_PHRASES[1], FILE_PHRASES[2];
    assert o == "into out" + "file" && u == "into dum" + "pfile" && l == "load dat" + "a";
    assert LOCKING == "lock in " + "share mo" + "de";
  }

  lemma {:induction false} BeginsAt(s: string, phrase: string, k: nat)
    requires Begins(s, phrase) && k < |phrase|
    ensures k < |s| && LowerChar(s[k]) == phrase[k]
  {
    if k > 0 {
      BeginsAt(s[1..], phrase[1..], k - 1);
    }
  }

  lemma {:induction false} NoPairAt(s: string, k: nat)
    requires NoPair(s) && k + 1 < |s|
    ensures !Pair(s[k], s[k + 1])
  {
    if k > 0 {
      NoPairAt(s[1..], k - 1);
    }
  }

  lemma {:induction false} NoPairNoPhrase(s: string, phrase: string)
    requires Phrase(phrase) && NoPair(s)
    ensures !Contains(s, phrase)
    decreases |s|
  {
    hide Phrase;
    PhraseIsPlain(phrase);
    if Begins(s, phrase) {
      PhraseHasPair(phrase);
      var k :| 0 <= k < |phrase| - 1 && Pair(phrase[k], phrase[k + 1]);
      BeginsAt(s, phrase, k);
      BeginsAt(s, phrase, k + 1);
      NoPairAt(s, k);
    }
    if s != "" {
      NoPairNoPhrase(s[1..], phrase);
    }
  }

  /** Nothing begins in `a` and reaches beyond the separator `q`. */
  lemma {:induction false} BeginsBefore(a: string, q: char, b: string, phrase: string)
    requires Separates(q) && forall c :: c in phrase ==> !Separates(c)
    ensures Begins(a + ([q] + b), phrase) <==> Begins(a, phrase)
    decreases |a|
  {
    if a == "" {
      assert a + ([q] + b) == [q] + b;
      assert phrase != "" ==> phrase[0] in phrase;
    } else if phrase != "" {
      assert (a + ([q] + b))[1..] == a[1..] + ([q] + b);
      assert forall c :: c in phrase[1..] ==> c in phrase;
      BeginsBefore(a[1..], q, b, phrase[1..]);
    }
  }

  lemma {:induction false} AcrossSeparator(a: string, q: char, b: string, phrase: string)
    requires Phrase(phrase) && Separates(q)
    ensures Contains(a + ([q] + b), phrase) <==> Contains(a, phrase) || Contains(b, phrase)
    decreases |a|
  {
    hide Phrase;
    PhraseIsPlain(phrase);
    BeginsBefore(a, q, b, phrase);
    if a == "" {
      assert a + ([q] + b) == [q] + b;
      assert ([q] + b)[1..] == b;
    } else {
      assert (a + ([q] + b))[1..] == a[1..] + ([q] + b);
      AcrossSeparator(a[1..], q, b, phrase);
    }
  }

  /** Doubling separators neither makes nor breaks a phrase. */
  lemma {:induction false} DoubledBegins(s: string, q: char, phrase: string)
    requires Separates(q) && forall c :: c in phrase ==> !Separates(c)
    ensures Begins(Replace(s, q, [q, q]), phrase) <==> Begins(s, phrase)
    decreases |s|
  {
    if s != "" && phrase != "" {
      assert phrase[0] in phrase && forall c :: c in phrase[1..] ==> c in phrase;
      DoubledBegins(s[1..], q, phrase[1..]);
      var more := Replace(s[1..], q, [q, q]);
      if s[0] == q {
        assert Replace(s, q, [q, q])[0] == q;
      } else {
        assert Replace(s, q, [q, q]) == [s[0]] + more && ([s[0]] + more)[1..] == more;
      }
    }
  }

  lemma {:induction false} DoubledContains(s: string, q: char, phrase: string)
    requires Phrase(phrase) && Separates(q)
    ensures Contains(Replace(s, q, [q, q]), phrase) <==> Contains(s, phrase)
    decreases |s|
  {
    hide Phrase;
    PhraseIsPlain(phrase);
    if s != "" {
      DoubledContains(s[1..], q, phrase);
      DoubledBegins(s, q, phrase);
      var more := Replace(s[1..], q, [q, q]);
      if s[0] == q {
        assert Replace(s, q, [q, q]) == "" + ([q] + ([q] + more));
        AcrossSeparator("", q, [q] + more, phrase);
        assert "" + ([q] + more) == [q] + more;
        AcrossSeparator("", q, more, phrase);
        assert s == "" + ([q] + s[1..]);
        AcrossSeparator("", q, s[1..], phrase);
      } else {
        assert Replace(s, q, [q, q]) == [s[0]] + more && ([s[0]] + more)[1..] == more;
      }
    }
  }

  /** What follows begins with a separator, or nothing follows. */
  predicate Detached(rest: string) {
    rest == "" || Separates(rest[0])
  }

  lemma QuotedContains(s: string, q: char, rest: string, phrase: string)
    requires Phrase(phrase) && Separates(q)
    ensures Contains([q] + (s + ([q] + rest)), phrase) <==> Contains(s, phrase) || Contains(rest, phrase)
  {
    AcrossSeparator("", q, s + ([q] + rest), phrase);
    assert "" + ([q] + (s + ([q] + rest))) == [q] + (s + ([q] + rest));
    AcrossSeparator(s, q, rest, phrase);
    NothingContained(phrase);
  }

  lemma NothingContained(phrase: string)
    requires Phrase(phrase)
    ensures !Contains("", phrase)
  {
    NoPairNoPhrase("", phrase);
  }

  /** Words without a phrase, before a separator. */
  lemma WordContains(word: string, rest: string, phrase: string)
    requires Phrase(phrase) && NoPair(word) && Detached(rest)
    ensures Contains(word + rest, phrase) <==> Contains(rest, phrase)
  {
    NoPairNoPhrase(word, phrase);
    NothingContained(phrase);
    hide Contains, NoPair, Phrase;
    if rest == "" {
      assert word + rest == word;
    } else {
      assert rest == [rest[0]] + rest[1..];
      AcrossSeparator(word, rest[0], rest[1..], phrase);
      AcrossSeparator("", rest[0], rest[1..], phrase);
      assert "" + ([rest[0]] + rest[1..]) == rest;
    }
  }

  lemma IdentContains(id: string, rest: string, phrase: string)
    requires Phrase(phrase)
    ensures Contains(QuoteIdent(id) + rest, phrase) <==> Contains(id, phrase) || Contains(rest, phrase)
    ensures Detached(QuoteIdent(id) + rest)
  {
    hide Contains, Phrase;
    DoubledContains(id, '`', phrase);
    QuotedContains(Replace(id, '`', ['`', '`']), '`', rest, phrase);
    assert QuoteIdent(id) + rest == ['`'] + (Replace(id, '`', ['`', '`']) + (['`'] + rest));
  }

  predicate ValueContains(v: Value, phrase: string) {
    v.Text? && Contains(v.s, phrase)
  }

  lemma {:induction false} NoPairConcat(a: string, b: string)
    requires NoPair(a) && NoPair(b)
    requires a == "" || b == "" || !Pair(a[|a| - 1], b[0])
    ensures NoPair(a + b)
    decreases |a|
  {
    if a == "" || b == "" {
      assert a + b == if a == "" then b else a;
    } else {
      assert (a + b)[1..] == a[1..] + b;
      if |a| == 1 {
        assert a[1..] + b == b;
      } else {
        NoPairConcat(a[1..], b);
      }
    }
  }

  lemma {:induction false} DigitsHaveNoPair(n: nat)
    ensures NoPair(Digits(n)) && Digits(n) != "" && IsDigit(Digits(n)[|Digits(n)| - 1])
    decreases n
  {
    if n >= 10 {
      DigitsHaveNoPair(n / 10);
      NoPairConcat(Digits(n / 10), [('0' as int + n % 10) as char]);
    }
  }

  lemma NullHasNoPair()
    ensures NoPair("NULL")
  {
  }

  lemma PlainValueHasNoPair(v: Value)
    requires !v.Text?
    ensures NoPair(EscapeValue(v))
  {
    match v
    case Null =>
      NullHasNoPair();
    case Number(n) =>
      DigitsHaveNoPair(if n < 0 then -n else n);
      if n < 0 {
        NoPairConcat("-", Digits(-n));
      }
  }

  lemma ValueContained(v: Value, rest: string, phrase: string)
    requires Phrase(phrase) && Detached(rest)
    ensures Contains(EscapeValue(v) + rest, phrase) <==> ValueContains(v, phrase) || Contains(rest, phrase)
  {
    hide Contains, Phrase, Detached;
    if v.Text? {
      var doubled := Replace(v.s, '\\', ['\\', '\\']);
      DoubledContains(v.s, '\\', phrase);
      DoubledContains(doubled, '\'', phrase);
      QuotedContains(Replace(doubled, '\'', ['\'', '\'']), '\'', rest, phrase);
      assert EscapeValue(v) + rest == ['\''] + (Replace(doubled, '\'', ['\'', '\'']) + (['\''] + rest));
    } else {
      PlainValueHasNoPair(v);
      WordContains(EscapeValue(v), rest, phrase);
    }
  }

  lemma DetachedWord(w: string, rest: string)
    requires w != "" && Separates(w[0])
    ensures Detached(w + rest)
  {
  }

  lemma WordsHaveNoPair()
    ensures NoPair(", ") && NoPair(".") && NoPair("") && NoPair(")") && NoPair(" (") && NoPair(") VALUES (")
  {
    assert ") VALUES (" == ") VAL" + "UES (";
    NoPairConcat(") VAL", "UES (");
  }

  /** A comma and `more` after `first`, whatever `first` prints. */
  lemma CommaContains(more: string, phrase: string)
    requires Phrase(phrase)
    ensures (Contains(", " + more, phrase) <==> Contains(" " + more, phrase)) && Detached(", " + more)
  {
    AcrossSeparator("", ',', " " + more, phrase);
    NothingContained(phrase);
    assert "" + ([','] + (" " + more)) == ", " + more;
  }

  lemma {:induction false} IdentsContain(columns: seq<string>, rest: string, phrase: string)
    requires Phrase(phrase) && Detached(rest)
    ensures Contains(PrintIdents(columns) + rest, phrase)
       <==> (exists c :: c in columns && Contains(c, phrase)) || Contains(rest, phrase)
    ensures Detached(PrintIdents(columns) + rest)
    decreases |columns|
  {
    hide Contains, Phrase, QuoteIdent, Detached, NoPair;
    if columns == [] {
      assert PrintIdents(columns) + rest == rest;
    } else {
      assert columns == [columns[0]] + columns[1..];
      if |columns| == 1 {
        IdentContains(columns[0], rest, phrase);
      } else {
        var more := PrintIdents(columns[1..]) + rest;
        IdentsContain(columns[1..], rest, phrase);
        WordsHaveNoPair();
        WordContains(", ", more, phrase);
        IdentContains(columns[0], ", " + more, phrase);
        assert PrintIdents(columns) + rest == QuoteIdent(columns[0]) + (", " + more);
      }
    }
  }

  lemma {:induction false} ValuesContain(vs: seq<Value>, rest: string, phrase: string)
    requires Phrase(phrase) && Detached(rest)
    ensures Contains(PrintValues(vs) + rest, phrase)
       <==> (exists v :: v in vs && ValueContains(v, phrase)) || Contains(rest, phrase)
    decreases |vs|
  {
    hide Contains, Phrase, EscapeValue, ValueContains, NoPair;
    if vs == [] {
      assert PrintValues(vs) + rest == rest;
    } else {
      assert vs == [vs[0]] + vs[1..];
      if |vs| == 1 {
        ValueContained(vs[0], rest, phrase);
      } else {
        var more := PrintValues(vs[1..]) + rest;
        ValuesContain(vs[1..], rest, phrase);
        SpaceContains(more, phrase);
        CommaContains(more, phrase);
        ValueContained(vs[0], ", " + more, phrase);
        assert PrintValues(vs) + rest == EscapeValue(vs[0]) + (", " + more);
      }
    }
  }

  /** No phrase begins with a space. */
  lemma SpaceContains(more: string, phrase: string)
    requires Phrase(phrase)
    ensures Contains(" " + more, phrase) <==> Contains(more, phrase)
  {
    var o, u, l := FILE_PHRASES[0], FILE_PHRASES[1], FILE_PHRASES[2];
    assert o[0] == 'i' && u[0] == 'i' && l[0] == 'l' && LOCKING[0] == 'l';
    assert (" " + more)[1..] == more;
  }

  lemma ValuesWordHasNoPair()
    ensures NoPair(" = VALUES(")
  {
    assert " = VALUES(" == " = VA" + "LUES(";
    NoPairConcat(" = VA", "LUES(");
  }

  lemma ExcludedWordHasNoPair()
    ensures NoPair(" = excluded.")
  {
    assert " = excluded." == " = exc" + "luded.";
    NoPairConcat(" = exc", "luded.");
  }

  lemma MiddleIsWord(d: Dialect, middle: string, end: string)
    requires middle == if d == MySql then " = VALUES(" else " = excluded."
    requires end == if d == MySql then ")" else ""
    ensures NoPair(middle) && NoPair(end) && (end == "" || Separates(end[0]))
  {
    WordsHaveNoPair();
    ValuesWordHasNoPair();
    ExcludedWordHasNoPair();
    hide NoPair;
  }

  lemma SetContains(d: Dialect, c: string, rest: string, phrase: string)
    requires Phrase(phrase) && Detached(rest)
    ensures Contains(PrintSet(d, c) + rest, phrase) <==> Contains(c, phrase) || Contains(rest, phrase)
    ensures Detached(PrintSet(d, c) + rest)
  {
    hide Contains, Phrase, QuoteIdent, NoPair;
    var id := QuoteIdent(c);
    var middle := if d == MySql then " = VALUES(" else " = excluded.";
    var end := if d == MySql then ")" else "";
    MiddleIsWord(d, middle, end);
    assert Detached(end + rest) by {
      assert rest != "" || end + rest == end;
    }
    WordContains(end, rest, phrase);
    IdentContains(c, end + rest, phrase);
    WordContains(middle, id + (end + rest), phrase);
    IdentContains(c, middle + (id + (end + rest)), phrase);
    SetThen(d, c, middle, end, rest);
  }

  lemma {:induction false} SetsContain(d: Dialect, columns: seq<string>, rest: string, phrase: string)
    requires Phrase(phrase) && Detached(rest)
    ensures Contains(PrintSets(d, columns) + rest, phrase)
       <==> (exists c :: c in columns && Contains(c, phrase)) || Contains(rest, phrase)
    ensures Detached(PrintSets(d, columns) + rest)
    decreases |columns|
  {
    hide Contains, Phrase, PrintSet, Detached, NoPair;
    if columns == [] {
      assert PrintSets(d, columns) + rest == rest;
    } else {
      assert columns == [columns[0]] + columns[1..];
      if |columns| == 1 {
        SetContains(d, columns[0], rest, phrase);
      } else {
        var more := PrintSets(d, columns[1..]) + rest;
        SetsContain(d, columns[1..], rest, phrase);
        WordsHaveNoPair();
        WordContains(", ", more, phrase);
        CommaContains(more, phrase);
        SetContains(d, columns[0], ", " + more, phrase);
        assert PrintSets(d, columns) + rest == PrintSet(d, columns[0]) + (", " + more);
      }
    }
  }

  predicate TableContains(ref: TableRef, phrase: string) {
    Contains(ref.table, phrase) || (ref.database.Some? && Contains(ref.database.value, phrase))
  }

  lemma TableContained(ref: TableRef, rest: string, phrase: string)
    requires Phrase(phrase)
    ensures Contains(PrintTable(ref.database, ref.table) + rest, phrase)
       <==> TableContains(ref, phrase) || Contains(rest, phrase)
    ensures Detached(PrintTable(ref.database, ref.table) + rest)
  {
    hide Contains, Phrase, QuoteIdent, Detached, NoPair;
    IdentContains(ref.table, rest, phrase);
    if ref.database.Some? {
      var more := QuoteIdent(ref.table) + rest;
      WordsHaveNoPair();
      WordContains(".", more, phrase);
      IdentContains(ref.database.value, "." + more, phrase);
      assert PrintTable(ref.database, ref.table) + rest == QuoteIdent(ref.database.value) + ("." + more);
    }
  }

  lemma InsertHasNoPair()
    ensures NoPair("INSERT INTO ")
  {
    assert "INSERT INTO " == "INSERT" + " INTO ";
    NoPairConcat("INSERT", " INTO ");
  }

  lemma DuplicateHasNoPair()
    ensures NoPair(") ON DUPLICATE")
  {
    assert ") ON DUPLICATE" == ") ON DU" + "PLICATE";
    NoPairConcat(") ON DU", "PLICATE");
  }

  lemma KeyUpdateHasNoPair()
    ensures NoPair(" KEY UPDATE ")
  {
    assert " KEY UPDATE " == " KEY U" + "PDATE ";
    NoPairConcat(" KEY U", "PDATE ");
  }

  lemma ConflictHasNoPair()
    ensures NoPair(") ON CONFLICT")
  {
    assert ") ON CONFLICT" == ") ON CO" + "NFLICT";
    NoPairConcat(") ON CO", "NFLICT");
  }

  lemma SetHasNoPair()
    ensures NoPair(" SET ")
  {
  }

  lemma DoUpdateHasNoPair()
    ensures NoPair(" DO UPDATE SET ")
  {
    assert " DO UPDATE SET " == " DO U" + "PDATE" + " SET ";
    NoPairConcat(" DO U", "PDATE");
    SetHasNoPair();
    hide NoPair;
    NoPairConcat(" DO U" + "PDATE", " SET ");
  }

  lemma ClauseHasNoPair(d: Dialect)
    ensures NoPair(ConflictClause(d)) && ConflictClause(d) != "" && Separates(ConflictClause(d)[0])
  {
    hide NoPair, ConflictClause;
    ClauseInTwo(d);
    if d == MySql {
      DuplicateHasNoPair();
      KeyUpdateHasNoPair();
      NoPairConcat(") ON DUPLICATE", " KEY UPDATE ");
    } else {
      ConflictHasNoPair();
      DoUpdateHasNoPair();
      NoPairConcat(") ON CONFLICT", " DO UPDATE SET ");
    }
  }

  lemma TailContains(d: Dialect, columns: seq<string>, phrase: string)
    requires Phrase(phrase)
    ensures Contains(Tail(d, columns) + ";", phrase) <==> exists c :: c in columns && Contains(c, phrase)
    ensures Detached(Tail(d, columns) + ";")
  {
    hide Contains, Phrase, PrintSets, ConflictClause, NoPair;
    LoneHasNoPair();
    NoPairNoPhrase(";", phrase);
    SetsContain(d, columns, ";", phrase);
    ClauseHasNoPair(d);
    var sets := PrintSets(d, columns) + ";";
    WordContains(ConflictClause(d), sets, phrase);
    assert Tail(d, columns) + ";" == ConflictClause(d) + sets;
    DetachedWord(ConflictClause(d), sets);
  }

  lemma LoneHasNoPair()
    ensures NoPair(";")
  {
  }

  /** Words without a phrase that end in a separator, whatever follows. */
  lemma ClosedWordContains(word: string, q: char, rest: string, phrase: string)
    requires Phrase(phrase) && NoPair(word) && Separates(q)
    ensures Contains(word + [q] + rest, phrase) <==> Contains(rest, phrase)
  {
    NoPairNoPhrase(word, phrase);
    AcrossSeparator(word, q, rest, phrase);
    assert word + [q] + rest == word + ([q] + rest);
  }

  lemma OpenWordHasNoPair()
    ensures NoPair(") VALUES ") && NoPair(" ")
  {
    assert ") VALUES " == ") VAL" + "UES ";
    NoPairConcat(") VAL", "UES ");
  }

  /** No name and no text contains the phrase. */
  predicate WithoutPhrase(ref: TableRef, columns: seq<string>, vs: seq<Value>, phrase: string) {
    && !TableContains(ref, phrase)
    && (forall c :: c in columns ==> !Contains(c, phrase))
    && (forall v :: v in vs ==> !ValueContains(v, phrase))
  }

  lemma HeadContains(ref: TableRef, columns: seq<string>, rest: string, phrase: string)
    requires Phrase(phrase)
    ensures Contains(Head(ref, columns) + rest, phrase)
       <==> TableContains(ref, phrase) || (exists c :: c in columns && Contains(c, phrase)) || Contains(rest, phrase)
  {
    hide Contains, Phrase, PrintTable, PrintIdents, TableContains, NoPair, Detached;
    var t, i := PrintTable(ref.database, ref.table), PrintIdents(columns);
    InsertHasNoPair();
    OpenWordHasNoPair();
    ClosedWordContains(") VALUES ", '(', rest, phrase);
    assert ") VALUES " + ['('] == ") VALUES (";
    DetachedWord(") VALUES (", rest);
    IdentsContain(columns, ") VALUES (" + rest, phrase);
    ClosedWordContains(" ", '(', i + (") VALUES (" + rest), phrase);
    assert " " + ['('] == " (";
    TableContained(ref, " (" + (i + (") VALUES (" + rest)), phrase);
    WordContains("INSERT INTO ", t + (" (" + (i + (") VALUES (" + rest))), phrase);
    HeadThen(t, i, rest);
  }

  lemma PrintedContains(d: Dialect, ref: TableRef, columns: seq<string>, vs: seq<Value>, phrase: string)
    requires Phrase(phrase)
    ensures Contains(PrintUpsert(d, ref.database, ref.table, columns, vs), phrase)
       <==> !WithoutPhrase(ref, columns, vs, phrase)
  {
    hide Contains, Phrase, PrintValues, Head, Tail, TableContains, ValueContains, Detached, PrintUpsert;
    var tail := Tail(d, columns) + ";";
    TailContains(d, columns, phrase);
    ValuesContain(vs, tail, phrase);
    HeadContains(ref, columns, PrintValues(vs) + tail, phrase);
    InThree(d, ref, columns, vs);
  }

  // ----- The gate, row by row -----

  /** A printed row passes. */
  predicate RowAdmitted(d: Dialect, policy: Policy, ref: TableRef, columns: seq<string>, vs: seq<Value>) {
    Admits(d, policy, PrintUpsert(d, ref.database, ref.table, columns, vs))
  }

  /** No name and no text names files. */
  predicate WithoutFiles(ref: TableRef, columns: seq<string>, vs: seq<Value>) {
    forall phrase :: phrase in FILE_PHRASES ==> WithoutPhrase(ref, columns, vs, phrase)
  }

  lemma NamesFilesIff(d: Dialect, ref: TableRef, columns: seq<string>, vs: seq<Value>)
    ensures NamesFiles(PrintUpsert(d, ref.database, ref.table, columns, vs)) <==> !WithoutFiles(ref, columns, vs)
  {
    hide Contains, PrintUpsert, WithoutPhrase;
    forall phrase | phrase in FILE_PHRASES
      ensures Contains(PrintUpsert(d, ref.database, ref.table, columns, vs), phrase)
         <==> !WithoutPhrase(ref, columns, vs, phrase)
    {
      PrintedContains(d, ref, columns, vs, phrase);
    }
    assert FILE_PHRASES[0] in FILE_PHRASES && FILE_PHRASES[1] in FILE_PHRASES && FILE_PHRASES[2] in FILE_PHRASES;
  }

  /** What a text that does not parse still passes as. */
  predicate LooksLocking(stripped: string) {
    && !LooksMultiple(stripped)
    && !Contains(stripped, "into outfile") && !Contains(stripped, "into dumpfile")
    && Contains(stripped, LOCKING)
  }

  /**
   For plain names and any values. If all comments in the row end, it passes exactly when the policy lets the
   table be written, no name and no stripped text names files, and the stripped statement does not look like
   several; it does not look so unless backslashes and semicolons come together. If one does not end, it
   passes only as what looks like a locking read.
  */
  lemma RowAdmittedIff(d: Dialect, policy: Policy, ref: TableRef, columns: seq<string>, vs: seq<Value>)
    requires PlainNames(ref, columns) && columns != [] && vs != []
    ensures match StripOut(vs)
            case Some(ws) =>
              var stripped := PrintUpsert(d, ref.database, ref.table, columns, ws);
              && (RowAdmitted(d, policy, ref, columns, vs)
                  <==> policy.write(ref) && WithoutFiles(ref, columns, ws) && !LooksMultiple(stripped))
              && (Unmistakable(ref, columns, ws) ==> !LooksMultiple(stripped))
            case None =>
              RowAdmitted(d, policy, ref, columns, vs)
              <==> policy.read && LooksLocking(Strip(PrintUpsert(d, ref.database, ref.table, columns, vs)))
  {
    hide PrintUpsert, ReadUpsert, StripOut, Contains, LooksMultiple, WithoutFiles, NamesFiles;
    StripsToStatement(d, ref, columns, vs);
    match StripOut(vs) {
      case None =>
        RunningOffIsNoUpsert(d, PrintUpsert(d, ref.database, ref.table, columns, vs));
      case Some(ws) =>
        UpsertRoundTrip(d, ref.database, ref.table, columns, ws);
        NamesFilesIff(d, ref, columns, ws);
        assert TableRef(ref.database, ref.table) == ref;
        if Unmistakable(ref, columns, ws) {
          StatementIsOne(d, ref, columns, ws);
        }
    }
  }

  /** A row in which no comment opens is its own stripped form. */
  lemma {:induction false} CleanRow(vs: seq<Value>)
    requires AllValuesFree(Opener, vs)
    ensures StripOut(vs) == Some(vs)
    decreases |vs|
  {
    if vs != [] {
      assert vs[0] in vs && forall v :: v in vs[1..] ==> v in vs;
      CleanRow(vs[1..]);
      assert vs == [vs[0]] + vs[1..];
      if vs[0].Text? {
        CleanText(vs[0].s, vs[1..]);
      }
    }
  }

  lemma {:induction false} CleanText(s: string, vs: seq<Value>)
    requires NoOpener(s) && StripOut(vs) == Some(vs)
    ensures StripIn(s, vs) == Some((s, vs))
    decreases |s|
  {
    if s != "" {
      CleanText(s[1..], vs);
      assert s == [s[0]] + s[1..];
    }
  }

  /** C#: the comment sign inside the text is taken for a comment, and the statement does not parse. */
  lemma HashDoesNotParse(d: Dialect, ref: TableRef, columns: seq<string>, key: int)
    requires PlainNames(ref, columns) && columns != []
    ensures !Parses(d, ref, columns, [Number(key), Text("C#")])
  {
    var vs := [Number(key), Text("C#")];
    ParsesIff(d, ref, columns, vs);
    assert vs[1..] == [Text("C#")] && vs[1..][1..] == [];
    var s := "C#";
    assert s[0] == 'C' && s[1..] == "#" && "#"[1..] == "";
    assert LineEndIn("#", []) == LineEndIn("", []) == LineEndOut([]) == None;
    assert StripIn("#", []) == None;
    assert StripIn(s, []) == None;
    assert StripOut([Text(s)]) == None;
  }

  /** What is left of the statement of a C# row. */
  lemma HashStrips(d: Dialect, ref: TableRef, columns: seq<string>, key: int)
    requires PlainNames(ref, columns)
    ensures Strip(PrintUpsert(d, ref.database, ref.table, columns, [Number(key), Text("C#")]))
         == Head(ref, columns) + (EscapeValue(Number(key)) + ", 'C ")
  {
    hide PrintUpsert, Head, Tail, NoCloser, NoOpener, RunsOff, Strip, PlainNames, EscapeValue;
    var vs := [Number(key), Text("C#")];
    var head, n, end := Head(ref, columns), EscapeValue(Number(key)), Tail(d, columns) + ";";
    var comment := "#'" + end;
    HashIsPrinted(key);
    EndIsPlain(d, ref, columns);
    HashStripsToSpace(end);
    assert NoOpener(head) && LastSafe(head) by { PlainHead(ref, columns); }
    EscapedFree(Opener, Number(key));
    QuoteCIsPlain();
    StripConcat(", 'C", comment);
    StripConcat(n, ", 'C" + comment);
    StripConcat(head, n + (", 'C" + comment));
    InThree(d, ref, columns, vs);
    assert PrintValues(vs) + end == n + (", 'C" + comment);
    assert ", 'C" + " " == ", 'C ";
  }

  lemma PlainHead(ref: TableRef, columns: seq<string>)
    requires PlainNames(ref, columns)
    ensures NoOpener(Head(ref, columns)) && LastSafe(Head(ref, columns))
  {
    HeadFree(Opener, ref, columns);
  }

  lemma HashIsPrinted(key: int)
    ensures PrintValues([Number(key), Text("C#")]) == EscapeValue(Number(key)) + ", 'C#'"
  {
    hide EscapeValue;
    assert [Number(key), Text("C#")][1..] == [Text("C#")];
    assert EscapeValue(Text("C#")) == "'C#'" by { EscapedHash(); }
  }

  lemma EscapedHash()
    ensures EscapeValue(Text("C#")) == "'C#'"
  {
    var s := "C#";
    assert s[1..] == "#" && "#"[1..] == "";
    assert Replace(s, '\\', "\\\\") == s && Replace(s, '\'', "\'\'") == s;
  }

  lemma QuoteCIsPlain()
    ensures NoOpener(", 'C") && LastSafe(", 'C") && !OpensBlock(", 'C")
  {
    Word(Opener, ", 'C");
  }

  lemma HashStripsToSpace(end: string)
    requires NoCloser(end)
    ensures Strip("#'" + end) == " "
  {
    var text := "#'" + end;
    ClosesBlockConcat("#'", end);
    assert "#'"[1..] == "'" && "'"[1..] == "";
    NothingCloses(text);
    StripNothing();
    assert OpensLine(text) && !OpensBlock(text);
  }

  /** So a row with C# is refused, for any plain names that do not say "lock in share mode". */
  lemma HashIsRefused(d: Dialect, policy: Policy, ref: TableRef, columns: seq<string>, key: int)
    requires PlainNames(ref, columns) && columns != []
    requires !TableContains(ref, LOCKING) && forall c :: c in columns ==> !Contains(c, LOCKING)
    ensures !RowAdmitted(d, policy, ref, columns, [Number(key), Text("C#")])
  {
    hide *;
    HashDoesNotParse(d, ref, columns, key);
    HashStrips(d, ref, columns, key);
    LockingIsAPhrase();
    HashContainsNothing(key, LOCKING);
    HeadContains(ref, columns, EscapeValue(Number(key)) + ", 'C ", LOCKING);
    NotParsedIsRefused(d, policy, ref, columns, [Number(key), Text("C#")]);
  }

  lemma LockingIsAPhrase()
    ensures Phrase(LOCKING)
  {
  }

  lemma HashContainsNothing(key: int, phrase: string)
    requires Phrase(phrase)
    ensures !Contains(EscapeValue(Number(key)) + ", 'C ", phrase)
  {
    assert NoPair(", 'C ");
    hide Phrase, Contains, NoPair, EscapeValue;
    NoPairNoPhrase(", 'C ", phrase);
    ValueContained(Number(key), ", 'C ", phrase);
  }

  lemma NotParsedIsRefused(d: Dialect, policy: Policy, ref: TableRef, columns: seq<string>, vs: seq<Value>)
    requires !Parses(d, ref, columns, vs)
    requires !Contains(Strip(PrintUpsert(d, ref.database, ref.table, columns, vs)), LOCKING)
    ensures !RowAdmitted(d, policy, ref, columns, vs)
  {
    hide Strip, PrintUpsert, ReadUpsert, Contains, LooksMultiple;
  }

  /** A single text that ends in a backslash beside one with a parenthesis and a semicolon looks like two
      statements: the quote behind the backslash does not count. */
  lemma BackslashHidesQuote(rest: string)
    ensures Multiple("('a\\\\', ');' " + rest, ' ', None, 0)
  {
    var t := "('a\\\\', ');' " + rest;
    assert t[0] == '(' && t[1] == '\'' && t[2] == 'a' && t[3] == '\\' && t[4] == '\\' && t[5] == '\'';
    assert t[6] == ',' && t[7] == ' ' && t[8] == '\'' && t[9] == ')' && t[10] == ';';
    assert Multiple(t[10..], ')', None, 0);
    assert t[9..][1..] == t[10..] && t[9..][0] == ')';
    assert Multiple(t[9..], '\'', None, 1);
    assert t[8..][1..] == t[9..] && Multiple(t[8..], ' ', Some('\''), 1);
    assert t[7..][1..] == t[8..] && Multiple(t[7..], ',', Some('\''), 1);
    assert t[6..][1..] == t[7..] && Multiple(t[6..], '\'', Some('\''), 1);
    assert t[5..][1..] == t[6..] && Multiple(t[5..], '\\', Some('\''), 1);
    assert t[4..][1..] == t[5..] && Multiple(t[4..], '\\', Some('\''), 1);
    assert t[3..][1..] == t[4..] && Multiple(t[3..], 'a', Some('\''), 1);
    assert t[2..][1..] == t[3..] && Multiple(t[2..], '\'', Some('\''), 1);
    assert t[1..][1..] == t[2..] && Multiple(t[1..], '(', None, 1);
  }
}
