/**
 Host patterns of known_hosts (src/sql/known_hosts.rs). A pattern is translated into a small regular
 expression that a recursive matcher then runs.
*/
module KnownHosts {
  import opened Wrappers
  import opened UpsertText

  // ----- The code -----

  predicate IsSpecial(c: char) {
    c in ".+^$()[]{}\\"
  }

  function TranslateChar(c: char): string {
    if c == '*' then ".*" else if c == '?' then "." else if IsSpecial(c) then ['\\', c] else [c]
  }

  function Translate(p: string): string {
    if p == "" then "" else TranslateChar(p[0]) + Translate(p[1..])
  }

  /** The matcher. A dot before a backslash is compared as the character the backslash quotes. */
  predicate Rec(p: string, t: string)
    decreases |p|
  {
    if p == "" then t == ""
    else if p[0] == '.' && |p| > 1 && p[1] == '*' then exists i :: 0 <= i <= |t| && Rec(p[2..], t[i..])
    else if t == "" then false
    else if p[0] == '.' && |p| > 1 && p[1] == '\\' then |p| > 2 && t[0] == p[2] && Rec(p[2..], t[1..])
    else if p[0] == '\\' && |p| > 1 then t[0] == p[1] && Rec(p[2..], t[1..])
    else p[0] == t[0] && Rec(p[1..], t[1..])
  }

  method TranslateWithLoop(p: string) returns (re: string)
    ensures re == Translate(p)
  {
    var whole := "^";
    for i := 0 to |p|
      invariant whole + Translate(p[i..]) == "^" + Translate(p)
    {
      assert p[i..][1..] == p[i + 1..];
      whole := whole + TranslateChar(p[i]);
    }
    whole := whole + "$";
    assert whole == "^" + Translate(p) + "$";
    re := whole[1..|whole| - 1];
  }

  // ----- What a pattern means -----

  function Wildcards(p: string): nat {
    if p == "" then 0 else (if p[0] == '*' || p[0] == '?' then 1 else 0) + Wildcards(p[1..])
  }

  /** The pattern with its wildcards replaced, in order, by `fills`. */
  function Fill(p: string, fills: seq<string>): string
    requires |fills| == Wildcards(p)
  {
    if p == "" then ""
    else if p[0] == '*' || p[0] == '?' then fills[0] + Fill(p[1..], fills[1..])
    else [p[0]] + Fill(p[1..], fills)
  }

  /** A question mark stands for one character. */
  predicate Fits(p: string, fills: seq<string>)
    requires |fills| == Wildcards(p)
  {
    if p == "" then true
    else if p[0] == '*' || p[0] == '?' then (p[0] == '?' ==> |fills[0]| == 1) && Fits(p[1..], fills[1..])
    else Fits(p[1..], fills)
  }

  ghost predicate Matches(p: string, host: string) {
    exists fills: seq<string> :: |fills| == Wildcards(p) && Fits(p, fills) && host == Fill(p, fills)
  }

  /** The same, one character of the pattern at a time. */
  ghost predicate Glob(p: string, t: string) {
    if p == "" then t == ""
    else if p[0] == '*' then exists i :: 0 <= i <= |t| && Glob(p[1..], t[i..])
    else t != "" && (p[0] == '?' || p[0] == t[0]) && Glob(p[1..], t[1..])
  }

  lemma {:induction false} GlobFills(p: string, t: string) returns (fills: seq<string>)
    requires Glob(p, t)
    ensures |fills| == Wildcards(p) && Fits(p, fills) && t == Fill(p, fills)
    decreases |p|
  {
    if p == "" {
      fills := [];
    } else if p[0] == '*' {
      var i :| 0 <= i <= |t| && Glob(p[1..], t[i..]);
      var more := GlobFills(p[1..], t[i..]);
      fills := [t[..i]] + more;
      assert fills[1..] == more;
    } else if p[0] == '?' {
      var more := GlobFills(p[1..], t[1..]);
      fills := [t[..1]] + more;
      assert fills[1..] == more;
    } else {
      fills := GlobFills(p[1..], t[1..]);
    }
  }

  lemma {:induction false} FillGlobs(p: string, fills: seq<string>)
    requires |fills| == Wildcards(p) && Fits(p, fills)
    ensures Glob(p, Fill(p, fills))
    decreases |p|
  {
    var t := Fill(p, fills);
    if p != "" {
      if p[0] == '*' || p[0] == '?' {
        FillGlobs(p[1..], fills[1..]);
        assert t[|fills[0]|..] == Fill(p[1..], fills[1..]);
      } else {
        FillGlobs(p[1..], fills);
        assert t[1..] == Fill(p[1..], fills);
      }
    }
  }

  lemma GlobIsMatches(p: string, t: string)
    ensures Glob(p, t) <==> Matches(p, t)
  {
    if Glob(p, t) {
      var fills := GlobFills(p, t);
    }
    if Matches(p, t) {
      var fills: seq<string> :| |fills| == Wildcards(p) && Fits(p, fills) && t == Fill(p, fills);
      FillGlobs(p, fills);
    }
  }

  // ----- What the matcher decides -----

  /** One step of the matcher for each kind of character, unless a bare dot comes before. */
  lemma RecStar(rest: string, t: string)
    ensures Rec(".*" + rest, t) <==> exists i :: 0 <= i <= |t| && Rec(rest, t[i..])
  {
    assert (".*" + rest)[2..] == rest;
  }

  lemma RecLiteral(c: char, rest: string, t: string)
    requires c != '*' && c != '?'
    ensures Rec(TranslateChar(c) + rest, t) <==> t != "" && t[0] == c && Rec(rest, t[1..])
  {
    if IsSpecial(c) {
      assert (TranslateChar(c) + rest)[2..] == rest;
    } else {
      assert (TranslateChar(c) + rest)[1..] == rest;
    }
  }

  lemma {:induction false} RecIsGlob(p: string, t: string)
    requires '?' !in p
    ensures Rec(Translate(p), t) <==> Glob(p, t)
    decreases |p|
  {
    if p != "" {
      hide Rec, IsSpecial;
      assert p == [p[0]] + p[1..];
      if p[0] == '*' {
        RecStar(Translate(p[1..]), t);
        forall i | 0 <= i <= |t| ensures Rec(Translate(p[1..]), t[i..]) <==> Glob(p[1..], t[i..]) {
          RecIsGlob(p[1..], t[i..]);
        }
      } else {
        RecLiteral(p[0], Translate(p[1..]), t);
        if t != "" {
          RecIsGlob(p[1..], t[1..]);
        }
      }
    }
  }

  /** For patterns without question marks the translation and the matcher decide exactly the glob. */
  lemma MatcherDecidesGlob(p: string, host: string)
    requires '?' !in p
    ensures Rec(Translate(p), host) <==> Matches(p, host)
  {
    RecIsGlob(p, host);
    GlobIsMatches(p, host);
  }

  // ----- Question marks -----

  datatype Token = Star | Lit(c: char)

  ghost predicate TokensMatch(m: seq<Token>, t: string) {
    if m == [] then t == ""
    else if m[0].Star? then exists i :: 0 <= i <= |t| && TokensMatch(m[1..], t[i..])
    else t != "" && t[0] == m[0].c && TokensMatch(m[1..], t[1..])
  }

  /**
   The star pattern that the matcher really runs. A question mark stands for a dot or, before a special
   character, for that character; a special dot so used up is treated as a question mark itself, and a
   backslash so used up quotes the first character of what comes after.
  */
  function Meant(p: string): seq<Token>
    decreases |p|, 1
  {
    if p == "" then []
    else if p[0] == '*' then [Star] + Meant(p[1..])
    else if p[0] != '?' then [Lit(p[0])] + Meant(p[1..])
    else if |p| > 1 && p[1] == '\\' then [Lit('\\')] + MeantQuoted(p[2..])
    else if |p| > 1 && p[1] == '.' then [Lit('.')] + Meant("?" + p[2..])
    else if |p| > 1 && IsSpecial(p[1]) then [Lit(p[1])] + ([Lit(p[1])] + Meant(p[2..]))
    else [Lit('.')] + Meant(p[1..])
  }

  /** The same for a pattern whose translation has a single backslash before it. */
  function MeantQuoted(p: string): seq<Token>
    decreases |p|, 2
  {
    if p == "" then [Lit('\\')]
    else if p[0] == '*' then [Lit('.')] + ([Lit('*')] + Meant(p[1..]))
    else if p[0] == '?' then [Lit('.')] + Meant(p[1..])
    else if p[0] == '\\' then [Lit('\\')] + MeantQuoted(p[1..])
    else if p[0] == '.' then [Lit('\\')] + Meant("?" + p[1..])
    else if IsSpecial(p[0]) then [Lit('\\')] + ([Lit(p[0])] + Meant(p[1..]))
    else [Lit(p[0])] + Meant(p[1..])
  }

  lemma TranslateCons(c: char, rest: string)
    ensures Translate([c] + rest) == TranslateChar(c) + Translate(rest)
  {
    assert ([c] + rest)[1..] == rest;
  }

  /** A dot that is not before a star or a backslash is a literal dot. */
  lemma RecBareDot(rest: string, t: string)
    requires rest == "" || (rest[0] != '*' && rest[0] != '\\')
    ensures Rec("." + rest, t) <==> t != "" && t[0] == '.' && Rec(rest, t[1..])
  {
    assert ("." + rest)[1..] == rest;
  }

  lemma RecDotBeforeQuoted(c: char, rest: string, t: string)
    ensures Rec(['.', '\\', c] + rest, t) <==> t != "" && t[0] == c && Rec([c] + rest, t[1..])
  {
    assert (['.', '\\', c] + rest)[2..] == [c] + rest;
  }

  lemma RecQuoted(c: char, rest: string, t: string)
    ensures Rec(['\\', c] + rest, t) <==> t != "" && t[0] == c && Rec(rest, t[1..])
  {
    assert (['\\', c] + rest)[2..] == rest;
  }

  lemma RecLoneBackslash(t: string)
    ensures Rec("\\", t) <==> t == "\\"
  {
    if t != "" {
      assert t == [t[0]] + t[1..];
      assert "\\"[1..] == "";
    }
  }

  lemma RecPlain(c: char, rest: string, t: string)
    requires c != '.' && c != '\\'
    ensures Rec([c] + rest, t) <==> t != "" && t[0] == c && Rec(rest, t[1..])
  {
    assert ([c] + rest)[1..] == rest;
  }

  lemma TranslateStart(p: string)
    requires p == "" || !IsSpecial(p[0])
    ensures Translate(p) == "" || (Translate(p)[0] != '*' && Translate(p)[0] != '\\')
  {
  }

  lemma TokensStar(rest: seq<Token>, t: string)
    ensures TokensMatch([Star] + rest, t) <==> exists i :: 0 <= i <= |t| && TokensMatch(rest, t[i..])
  {
    assert ([Star] + rest)[1..] == rest;
  }

  lemma TokensLit(c: char, rest: seq<Token>, t: string)
    ensures TokensMatch([Lit(c)] + rest, t) <==> t != "" && t[0] == c && TokensMatch(rest, t[1..])
  {
    assert ([Lit(c)] + rest)[1..] == rest;
  }

  /** The matcher decides exactly the star pattern that is meant, for every pattern. */
  lemma {:induction false} RecIsMeant(p: string, t: string)
    ensures Rec(Translate(p), t) <==> TokensMatch(Meant(p), t)
    decreases |p|, 1
  {
    if p != "" {
      hide Rec, Translate, IsSpecial, TokensMatch;
      assert p == [p[0]] + p[1..];
      TranslateCons(p[0], p[1..]);
      if p[0] == '*' {
        RecStar(Translate(p[1..]), t);
        TokensStar(Meant(p[1..]), t);
        forall i | 0 <= i <= |t| ensures Rec(Translate(p[1..]), t[i..]) <==> TokensMatch(Meant(p[1..]), t[i..]) {
          RecIsMeant(p[1..], t[i..]);
        }
      } else if p[0] != '?' {
        RecLiteral(p[0], Translate(p[1..]), t);
        TokensLit(p[0], Meant(p[1..]), t);
        if t != "" {
          RecIsMeant(p[1..], t[1..]);
        }
      } else {
        QuestionIsMeant(p, t);
      }
    }
  }

  lemma {:induction false} QuestionIsMeant(p: string, t: string)
    requires p != "" && p[0] == '?'
    ensures Rec(Translate(p), t) <==> TokensMatch(Meant(p), t)
    decreases |p|, 0
  {
    hide Rec, Translate, TokensMatch;
    var rest := p[1..];
    assert p == ['?'] + rest;
    TranslateCons('?', rest);
    if rest != "" && IsSpecial(rest[0]) {
      SpecialIsMeant(rest[0], rest[1..], t);
      assert rest == [rest[0]] + rest[1..] && rest[1..] == p[2..];
    } else {
      TranslateStart(rest);
      RecBareDot(Translate(rest), t);
      TokensLit('.', Meant(rest), t);
      if t != "" {
        RecIsMeant(rest, t[1..]);
      }
    }
  }

  /** A question mark before the special character `c`. */
  lemma {:induction false} SpecialIsMeant(c: char, more: string, t: string)
    requires IsSpecial(c)
    ensures Rec("." + Translate([c] + more), t) <==> TokensMatch(Meant("?" + ([c] + more)), t)
    decreases |more| + 1, 3
  {
    hide Rec, Translate, TokensMatch;
    var p := "?" + ([c] + more);
    assert p[1] == c && p[2..] == more;
    TranslateCons(c, more);
    assert "." + Translate([c] + more) == ['.', '\\', c] + Translate(more);
    RecDotBeforeQuoted(c, Translate(more), t);
    if c == '\\' {
      TokensLit(c, MeantQuoted(more), t);
      if t != "" {
        QuotedIsMeant(more, t[1..]);
      }
    } else if c == '.' {
      TranslateCons('?', more);
      TokensLit('.', Meant("?" + more), t);
      if t != "" {
        RecIsMeant("?" + more, t[1..]);
      }
    } else {
      TokensLit(c, [Lit(c)] + Meant(more), t);
      if t != "" {
        PlainIsMeant(c, more, t[1..]);
      }
    }
  }

  lemma {:induction false} PlainIsMeant(c: char, more: string, t: string)
    requires c != '.' && c != '\\'
    ensures Rec([c] + Translate(more), t) <==> TokensMatch([Lit(c)] + Meant(more), t)
    decreases |more|, 2
  {
    hide Rec, Translate, TokensMatch;
    RecPlain(c, Translate(more), t);
    TokensLit(c, Meant(more), t);
    if t != "" {
      RecIsMeant(more, t[1..]);
    }
  }

  /** A single backslash before the translation of `p`. */
  lemma {:induction false} QuotedIsMeant(p: string, t: string)
    ensures Rec("\\" + Translate(p), t) <==> TokensMatch(MeantQuoted(p), t)
    decreases |p|, 3
  {
    hide Rec, Translate, TokensMatch;
    if p == "" {
      LoneBackslashIsMeant(t);
    } else {
      var c, more := p[0], p[1..];
      assert p == [c] + more;
      TranslateCons(c, more);
      var first := TranslateChar(c)[0];
      var rest := TranslateChar(c)[1..] + Translate(more);
      assert "\\" + Translate(p) == ['\\', first] + rest;
      RecQuoted(first, rest, t);
      TokensLit(first, MeantQuoted(p)[1..], t);
      assert MeantQuoted(p) == [Lit(first)] + MeantQuoted(p)[1..];
      if t != "" {
        AfterQuote(p, t[1..]);
      }
    }
  }

  lemma LoneBackslashIsMeant(t: string)
    ensures Rec("\\" + Translate(""), t) <==> TokensMatch(MeantQuoted(""), t)
  {
    RecLoneBackslash(t);
    TokensLit('\\', [], t);
    assert "\\" + Translate("") == "\\";
    assert [Lit('\\')] + [] == MeantQuoted("");
    if t != "" {
      assert t == [t[0]] + t[1..];
    }
  }

  /** What is left of `p` once a backslash has quoted the first character of its translation. */
  lemma {:induction false} AfterQuote(p: string, t: string)
    requires p != ""
    ensures MeantQuoted(p) != []
    ensures Rec(TranslateChar(p[0])[1..] + Translate(p[1..]), t) <==> TokensMatch(MeantQuoted(p)[1..], t)
    decreases |p|, 2
  {
    hide Rec, Translate, TokensMatch;
    var c, more := p[0], p[1..];
    var rest := TranslateChar(c)[1..] + Translate(more);
    if c == '*' {
      assert rest == ['*'] + Translate(more);
      assert MeantQuoted(p)[1..] == [Lit('*')] + Meant(more);
      PlainIsMeant('*', more, t);
    } else if c == '\\' {
      assert rest == "\\" + Translate(more) && MeantQuoted(p)[1..] == MeantQuoted(more);
      QuotedIsMeant(more, t);
    } else if c == '.' {
      TranslateCons('?', more);
      assert rest == Translate("?" + more) && MeantQuoted(p)[1..] == Meant("?" + more);
      RecIsMeant("?" + more, t);
    } else if IsSpecial(c) {
      assert rest == [c] + Translate(more) && MeantQuoted(p)[1..] == [Lit(c)] + Meant(more);
      PlainIsMeant(c, more, t);
    } else {
      assert rest == Translate(more) && MeantQuoted(p)[1..] == Meant(more);
      RecIsMeant(more, t);
    }
  }

  /** A host the pattern should match: stars stand for nothing, question marks for the letter a. */
  function Sample(p: string): string {
    if p == "" then "" else if p[0] == '*' then Sample(p[1..])
    else [if p[0] == '?' then 'a' else p[0]] + Sample(p[1..])
  }

  lemma {:induction false} SampleMatches(p: string)
    ensures Glob(p, Sample(p))
    decreases |p|
  {
    if p != "" {
      SampleMatches(p[1..]);
      if p[0] == '*' {
        assert Sample(p)[0..] == Sample(p[1..]);
      } else {
        assert Sample(p)[1..] == Sample(p[1..]);
      }
    }
  }

  /** No host that a pattern matches is shorter than its sample. */
  lemma {:induction false} NothingShorter(p: string, t: string)
    requires Glob(p, t)
    ensures |t| >= |Sample(p)|
    decreases |p|
  {
    if p != "" {
      if p[0] == '*' {
        var i :| 0 <= i <= |t| && Glob(p[1..], t[i..]);
        NothingShorter(p[1..], t[i..]);
      } else {
        NothingShorter(p[1..], t[1..]);
      }
    }
  }

  function Literals(m: seq<Token>): string {
    if m == [] then "" else (if m[0].Star? then "" else [m[0].c]) + Literals(m[1..])
  }

  lemma {:induction false} LiteralsMatch(m: seq<Token>)
    ensures TokensMatch(m, Literals(m))
    decreases |m|
  {
    if m != [] {
      LiteralsMatch(m[1..]);
      if m[0].Star? {
        assert Literals(m)[0..] == Literals(m[1..]);
      } else {
        assert Literals(m)[1..] == Literals(m[1..]);
      }
    }
  }

  /** The shortest text that tokens match is their literals. */
  lemma {:induction false} ShortestMatch(m: seq<Token>, t: string)
    requires TokensMatch(m, t)
    ensures |t| >= |Literals(m)|
    ensures |t| == |Literals(m)| ==> t == Literals(m)
    decreases |m|
  {
    if m != [] {
      if m[0].Star? {
        var i :| 0 <= i <= |t| && TokensMatch(m[1..], t[i..]);
        ShortestMatch(m[1..], t[i..]);
      } else {
        ShortestMatch(m[1..], t[1..]);
        assert t == [t[0]] + t[1..];
      }
    }
  }

  /** What is meant parts with what is written at the first question mark. */
  lemma {:induction false} MeaningDiffers(p: string)
    requires '?' in p
    ensures Literals(Meant(p)) != Sample(p)
    decreases |p|
  {
    var m := Meant(p);
    assert p == [p[0]] + p[1..];
    if p[0] == '*' {
      MeaningDiffers(p[1..]);
      assert m[1..] == Meant(p[1..]);
    } else if p[0] != '?' {
      MeaningDiffers(p[1..]);
      assert m[1..] == Meant(p[1..]);
      assert Sample(p)[1..] == Sample(p[1..]) && Literals(m)[1..] == Literals(m[1..]);
    } else {
      assert Sample(p)[0] == 'a';
      assert m[0].Lit? && Literals(m)[0] == m[0].c != 'a';
    }
  }

  /** A host about which matcher and pattern disagree. */
  lemma QuestionMarkFails(p: string) returns (host: string)
    requires '?' in p
    ensures Rec(Translate(p), host) != Matches(p, host)
  {
    hide Rec, Translate, Meant;
    var short := Literals(Meant(p));
    host := if |short| < |Sample(p)| then short else Sample(p);
    GlobIsMatches(p, host);
    RecIsMeant(p, host);
    MeaningDiffers(p);
    SampleMatches(p);
    LiteralsMatch(Meant(p));
    if |short| < |Sample(p)| {
      if Glob(p, host) {
        NothingShorter(p, host);
      }
    } else if TokensMatch(Meant(p), host) {
      ShortestMatch(Meant(p), host);
    }
  }

  /** The matcher agrees with the pattern's meaning on every host exactly when the pattern has no question
      mark. */
  lemma QuestionMarksFail(p: string)
    ensures (forall host :: Rec(Translate(p), host) <==> Matches(p, host)) <==> '?' !in p
  {
    if '?' in p {
      var host := QuestionMarkFails(p);
    } else {
      forall host ensures Rec(Translate(p), host) <==> Matches(p, host) {
        MatcherDecidesGlob(p, host);
      }
    }
  }

  // ----- Ports -----

  /** Where `needle` first occurs. */
  function Find(s: string, needle: string): (r: Option<nat>)
    ensures r.Some? ==> r.value + |needle| <= |s|
  {
    if needle <= s then Some(0)
    else if s == "" then None
    else
      var more := Find(s[1..], needle);
      if more.None? then None else Some(more.value + 1)
  }

  lemma {:induction false} FoundFirst(s: string, needle: string)
    ensures var r := Find(s, needle);
            && (r.Some? ==> needle <= s[r.value..] && forall i :: 0 <= i < r.value ==> !(needle <= s[i..]))
            && (r.None? ==> forall i :: 0 <= i <= |s| ==> !(needle <= s[i..]))
    decreases |s|
  {
    assert s[0..] == s;
    if !(needle <= s) && s != "" {
      FoundFirst(s[1..], needle);
      assert forall i :: 1 <= i <= |s| ==> s[i..] == s[1..][i - 1..];
    }
  }

  predicate Bracketed(pattern: string) {
    pattern != "" && pattern[0] == '['
  }

  /** `[host]:port` names its port; any other pattern is for port 22, unless it has an unclosed bracket. */
  predicate PortAgrees(pattern: string, port: nat) {
    if !Bracketed(pattern) then port == 22
    else
      var close := Find(pattern, "]:");
      close.Some? ==> pattern[close.value + 2..] == Digits(port)
  }

  function Body(pattern: string): string {
    var close := Find(pattern, "]:");
    if Bracketed(pattern) && close.Some? && close.value > 0 then pattern[1..close.value] else pattern
  }

  lemma CloseIsLater(pattern: string)
    requires Bracketed(pattern) && Find(pattern, "]:").Some?
    ensures Find(pattern, "]:").value > 0
  {
    var close := Find(pattern, "]:").value;
    FoundFirst(pattern, "]:");
    assert pattern[close..][0] == ']';
  }

  method MatchesPattern(pattern: string, host: string, port: nat) returns (r: bool)
    ensures '?' !in Body(pattern) ==> (r <==> PortAgrees(pattern, port) && Matches(Body(pattern), host))
    ensures r <==> PortAgrees(pattern, port) && (Body(pattern) == host || TokensMatch(Meant(Body(pattern)), host))
  {
    hide Find, Matches, Meant, TokensMatch, Translate, Rec;
    var p, portMatch := pattern, true;
    if Bracketed(pattern) {
      var close := Find(p, "]:");
      if close.Some? {
        CloseIsLater(pattern);
        portMatch := p[close.value + 2..] == Digits(port);
        p := p[1..close.value];
      }
    } else if port != 22 {
      portMatch := false;
    }
    assert p == Body(pattern) && portMatch == PortAgrees(pattern, port);
    DecidesBody(p, host);
    if !portMatch {
      return false;
    }
    if p == host {
      return true;
    }
    if '*' in p || '?' in p {
      var re := TranslateWithLoop(p);
      r := Rec(re, host);
    } else {
      r := false;
    }
  }

  /** How a pattern is read: without a bracket in front it is for port 22 and all of it is the host; `[name]:port` is
      for exactly that port and has the name for its host; and an unclosed bracket is for every port. */
  lemma PortsOfPatterns(pattern: string, name: string, p: nat, port: nat)
    ensures pattern == "" || pattern[0] != '[' ==>
              (PortAgrees(pattern, port) <==> port == 22) && Body(pattern) == pattern
    ensures ']' !in name ==>
              && (PortAgrees("[" + name + "]:" + Digits(p), port) <==> port == p)
              && Body("[" + name + "]:" + Digits(p)) == name
    ensures ']' !in name ==> PortAgrees("[" + name, port) && Body("[" + name) == "[" + name
  {
    if ']' !in name {
      var digits := Digits(p);
      var full := "[" + name + "]:" + digits;
      hide Digits;
      FirstClose("[" + name, digits);
      assert full == ("[" + name) + ("]:" + digits);
      assert full[|name| + 3..] == digits && full[1..|name| + 1] == name;
      NoClose("[" + name);
      SameDigits(p, port);
    }
  }

  lemma SameDigits(p: nat, port: nat)
    ensures Digits(p) == Digits(port) ==> p == port
  {
    if Digits(p) == Digits(port) {
      DigitsRoundTrip(p, "");
      DigitsRoundTrip(port, "");
    }
  }

  lemma {:induction false} FirstClose(a: string, rest: string)
    requires ']' !in a
    ensures Find(a + ("]:" + rest), "]:") == Some(|a|)
    decreases |a|
  {
    var s := a + ("]:" + rest);
    if a == "" {
      assert s == "]:" + rest;
    } else {
      assert s[0] == a[0] && s[1..] == a[1..] + ("]:" + rest);
      assert a == [a[0]] + a[1..];
      FirstClose(a[1..], rest);
    }
  }

  lemma {:induction false} NoClose(a: string)
    requires ']' !in a
    ensures Find(a, "]:") == None
    decreases |a|
  {
    if a != "" {
      assert a == [a[0]] + a[1..];
      NoClose(a[1..]);
    }
  }

  /** What comparing and then running the matcher amounts to. */
  predicate Accepts(p: string, host: string) {
    p == host || (('*' in p || '?' in p) && Rec(Translate(p), host))
  }

  lemma DecidesBody(p: string, host: string)
    ensures '?' !in p ==> (Accepts(p, host) <==> Matches(p, host))
    ensures Accepts(p, host) <==> p == host || TokensMatch(Meant(p), host)
  {
    hide Rec, Translate, Meant, TokensMatch;
    RecIsMeant(p, host);
    if '?' !in p {
      MatcherDecidesGlob(p, host);
      GlobIsMatches(p, host);
      GlobsItself(p);
      if '*' !in p {
        PlainGlob(p, host);
      }
    }
  }

  lemma {:induction false} GlobsItself(p: string)
    ensures Glob(p, p)
    decreases |p|
  {
    if p != "" {
      GlobsItself(p[1..]);
    }
  }

  lemma {:induction false} PlainGlob(p: string, t: string)
    requires '*' !in p && '?' !in p
    ensures Glob(p, t) <==> p == t
    decreases |p|
  {
    if p != "" && t != "" {
      PlainGlob(p[1..], t[1..]);
      assert p == [p[0]] + p[1..] && t == [t[0]] + t[1..];
    }
  }
}
