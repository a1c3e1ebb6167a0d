/**
 Session grants (src/approval/mod.rs). A grant covers one connection, category and exact set of
 tables; the engine keeps it in a map under a printed key. Whether that is right depends on the
 printing being injective.
*/
module SessionGrants {
  import opened Wrappers
  import opened SqlText

  datatype Category = Read | Write | Ddl | Admin | TxCtrl {
    function Name(): string {
      match this
      case Read => "read"
      case Write => "write"
      case Ddl => "ddl"
      case Admin => "admin"
      case TxCtrl => "txCtrl"
    }
  }

  datatype GrantKey = GrantKey(connection: string, category: Category, tables: seq<TableId>)

  const SEPARATOR: char := '\U{0001}'
  const SESSION_TTL: nat := 30 * 60

  // ----- The printed key -----

  predicate AtMost(a: string, b: string) {
    a == "" || (b != "" && (a[0] < b[0] || (a[0] == b[0] && AtMost(a[1..], b[1..]))))
  }

  function Insert(x: string, sorted: seq<string>): seq<string> {
    if sorted == [] then [x]
    else if AtMost(x, sorted[0]) then [x] + sorted
    else [sorted[0]] + Insert(x, sorted[1..])
  }

  function Sort(xs: seq<string>): seq<string> {
    if xs == [] then [] else Insert(xs[0], Sort(xs[1..]))
  }

  function Join(xs: seq<string>): string {
    if xs == [] then "" else if |xs| == 1 then xs[0] else xs[0] + "," + Join(xs[1..])
  }

  function Dotted(t: TableId): string {
    t.schema + "." + t.table
  }

  function AllDotted(ts: seq<TableId>): seq<string> {
    if ts == [] then [] else [Dotted(ts[0])] + AllDotted(ts[1..])
  }

  function Printed(ts: seq<TableId>): string {
    Join(Sort(AllDotted(ts)))
  }

  function Canonical(k: GrantKey): string {
    k.connection + [SEPARATOR] + k.category.Name() + [SEPARATOR] + Printed(k.tables)
  }

  /** No separator in the connection. */
  predicate Separated(k: GrantKey) {
    SEPARATOR !in k.connection
  }

  /** Nor a comma in a name. */
  predicate CommaFreeTable(t: TableId) {
    ',' !in t.schema && ',' !in t.table
  }

  predicate CommaFree(k: GrantKey) {
    Separated(k) && forall t :: t in k.tables ==> CommaFreeTable(t)
  }

  function Dots(s: string): nat {
    if s == "" then 0 else (if s[0] == '.' then 1 else 0) + Dots(s[1..])
  }

  /** Every printed table name splits into database and table in one way only. */
  predicate OneDotEach(k: GrantKey) {
    forall t :: t in k.tables ==> Dots(Dotted(t)) == 1
  }

  /** The same grant: table order does not matter, table multiplicity does. */
  predicate SameScope(a: GrantKey, b: GrantKey) {
    a.connection == b.connection && a.category == b.category && multiset(a.tables) == multiset(b.tables)
  }

  /** Grants whose tables print alike. */
  predicate SamePrint(a: GrantKey, b: GrantKey) {
    a.connection == b.connection && a.category == b.category && Printed(a.tables) == Printed(b.tables)
  }

  /** Grants that are the same once database and table are joined by a dot. */
  predicate SameDotted(a: GrantKey, b: GrantKey) {
    && a.connection == b.connection && a.category == b.category
    && multiset(AllDotted(a.tables)) == multiset(AllDotted(b.tables))
  }

  /** At most one table, without a dot in its names. */
  predicate LoneTable(k: GrantKey) {
    |k.tables| <= 1 && OneDotEach(k)
  }

  // ----- Sorting is canonical -----

  lemma AtMostTotal(a: string, b: string)
    ensures AtMost(a, b) || AtMost(b, a)
    ensures AtMost(a, b) && AtMost(b, a) ==> a == b
    decreases |a|
  {
    if a != "" && b != "" && a[0] == b[0] {
      AtMostTotal(a[1..], b[1..]);
      assert a == [a[0]] + a[1..] && b == [b[0]] + b[1..];
    }
  }

  lemma AtMostTransitive(a: string, b: string, c: string)
    requires AtMost(a, b) && AtMost(b, c)
    ensures AtMost(a, c)
    decreases |a|
  {
    if a != "" && a[0] == b[0] == c[0] {
      AtMostTransitive(a[1..], b[1..], c[1..]);
    }
  }

  ghost predicate Sorted(xs: seq<string>) {
    forall i, j :: 0 <= i < j < |xs| ==> AtMost(xs[i], xs[j])
  }

  lemma {:induction false} InsertKeeps(x: string, xs: seq<string>)
    ensures multiset(Insert(x, xs)) == multiset(xs) + multiset{x}
    decreases |xs|
  {
    hide AtMost;
    if xs != [] {
      assert xs == [xs[0]] + xs[1..];
      InsertKeeps(x, xs[1..]);
    }
  }

  lemma {:induction false} InsertSorts(x: string, xs: seq<string>)
    requires Sorted(xs)
    ensures Sorted(Insert(x, xs))
    decreases |xs|
  {
    hide AtMost;
    if xs != [] {
      AtMostTotal(x, xs[0]);
      if AtMost(x, xs[0]) {
        forall k | 0 <= k < |xs| ensures AtMost(x, xs[k]) {
          if k > 0 { AtMostTransitive(x, xs[0], xs[k]); }
        }
      } else {
        InsertSorts(x, xs[1..]);
        var more := Insert(x, xs[1..]);
        InsertKeeps(x, xs[1..]);
        forall k | 0 <= k < |more| ensures AtMost(xs[0], more[k]) {
          assert more[k] in multiset(more);
          assert more[k] == x || more[k] in xs[1..];
        }
      }
    }
  }

  lemma {:induction false} SortSorts(xs: seq<string>)
    ensures Sorted(Sort(xs)) && multiset(Sort(xs)) == multiset(xs)
    decreases |xs|
  {
    if xs != [] {
      SortSorts(xs[1..]);
      InsertSorts(xs[0], Sort(xs[1..]));
      InsertKeeps(xs[0], Sort(xs[1..]));
      assert xs == [xs[0]] + xs[1..];
    }
  }

  lemma LeastIsFirst(a: seq<string>, x: string)
    requires Sorted(a) && x in a
    ensures AtMost(a[0], x)
  {
    AtMostTotal(x, x);
  }

  lemma HeadsMatch(a: seq<string>, b: seq<string>)
    requires Sorted(a) && Sorted(b) && multiset(a) == multiset(b) && a != [] && b != []
    ensures a[0] == b[0]
  {
    hide AtMost;
    assert a[0] in multiset(b) && b[0] in multiset(a);
    LeastIsFirst(a, b[0]);
    LeastIsFirst(b, a[0]);
    AtMostTotal(a[0], b[0]);
  }

  lemma TailsMatch(a: seq<string>, b: seq<string>)
    requires multiset(a) == multiset(b) && a != [] && b != [] && a[0] == b[0]
    ensures multiset(a[1..]) == multiset(b[1..])
  {
    assert a == [a[0]] + a[1..] && b == [b[0]] + b[1..];
    assert multiset(a[1..]) == multiset(a) - multiset{a[0]};
    assert multiset(b[1..]) == multiset(b) - multiset{b[0]};
  }

  lemma TailIsSorted(a: seq<string>)
    requires Sorted(a) && a != []
    ensures Sorted(a[1..])
  {
  }

  lemma {:induction false} SortedIsUnique(a: seq<string>, b: seq<string>)
    requires Sorted(a) && Sorted(b) && multiset(a) == multiset(b)
    ensures a == b
    decreases |a|
  {
    hide Sorted;
    assert |a| == |multiset(a)| == |multiset(b)| == |b|;
    if a != [] {
      HeadsMatch(a, b);
      TailsMatch(a, b);
      TailIsSorted(a);
      TailIsSorted(b);
      SortedIsUnique(a[1..], b[1..]);
      assert a == [a[0]] + a[1..] && b == [b[0]] + b[1..];
    }
  }

  // ----- Joining is injective -----

  /** A text splits in one way only at the first occurrence of `c`. */
  lemma FirstSplit(c: char, a: string, ra: string, b: string, rb: string)
    requires c !in a && c !in b && a + [c] + ra == b + [c] + rb
    ensures a == b && ra == rb
  {
    var s := a + [c] + ra;
    assert s[|a|] == c && s[|b|] == c;
    assert forall k :: 0 <= k < |a| ==> s[k] == a[k];
    assert forall k :: 0 <= k < |b| ==> s[k] == b[k];
    assert |a| == |b|;
    assert a == s[..|a|] && b == s[..|b|];
    assert ra == s[|a| + 1..] && rb == s[|b| + 1..];
  }

  ghost predicate Plain(xs: seq<string>) {
    forall x :: x in xs ==> x != "" && ',' !in x
  }

  lemma JoinHead(xs: seq<string>)
    requires Plain(xs) && xs != []
    ensures Join(xs) != ""
    ensures ',' in Join(xs) <==> |xs| > 1
  {
    assert xs[0] in xs;
    if |xs| > 1 {
      assert Join(xs)[|xs[0]|] == ',';
    }
  }

  lemma {:induction false} JoinInjective(xs: seq<string>, ys: seq<string>)
    requires Plain(xs) && Plain(ys) && Join(xs) == Join(ys)
    ensures xs == ys
    decreases |xs|
  {
    if xs != [] { JoinHead(xs); }
    if ys != [] { JoinHead(ys); }
    if |xs| > 1 {
      assert xs[0] in xs && ys[0] in ys;
      assert forall x :: x in xs[1..] ==> x in xs;
      assert forall y :: y in ys[1..] ==> y in ys;
      assert Join(xs) == xs[0] + [','] + Join(xs[1..]) && Join(ys) == ys[0] + [','] + Join(ys[1..]);
      FirstSplit(',', xs[0], Join(xs[1..]), ys[0], Join(ys[1..]));
      JoinInjective(xs[1..], ys[1..]);
      assert xs == [xs[0]] + xs[1..] && ys == [ys[0]] + ys[1..];
    }
  }

  lemma {:induction false} DottedSource(ts: seq<TableId>, x: string)
    ensures x in AllDotted(ts) <==> exists t :: t in ts && Dotted(t) == x
    decreases |ts|
  {
    if ts != [] {
      DottedSource(ts[1..], x);
      assert ts == [ts[0]] + ts[1..];
    }
  }

  lemma DottedIsPlain(ts: seq<TableId>)
    requires forall t :: t in ts ==> CommaFreeTable(t)
    ensures Plain(Sort(AllDotted(ts)))
  {
    SortSorts(AllDotted(ts));
    forall x | x in Sort(AllDotted(ts)) ensures x != "" && ',' !in x {
      assert x in multiset(AllDotted(ts));
      DottedSource(ts, x);
    }
  }

  /** Keys are equal exactly when connection, category and printed tables are. */
  lemma CanonicalIff(a: GrantKey, b: GrantKey)
    requires Separated(a) && Separated(b)
    ensures Canonical(a) == Canonical(b) <==> SamePrint(a, b)
  {
    hide Printed, Category.Name;
    if Canonical(a) == Canonical(b) {
      var pa, pb := Printed(a.tables), Printed(b.tables);
      var ra, rb := a.category.Name() + [SEPARATOR] + pa, b.category.Name() + [SEPARATOR] + pb;
      assert Canonical(a) == a.connection + [SEPARATOR] + ra && Canonical(b) == b.connection + [SEPARATOR] + rb;
      FirstSplit(SEPARATOR, a.connection, ra, b.connection, rb);
      NamesDiffer(a.category, b.category);
      FirstSplit(SEPARATOR, a.category.Name(), pa, b.category.Name(), pb);
    }
  }

  /** Without commas, tables print alike exactly when the multisets of their dotted names agree. */
  lemma PrintedIff(a: GrantKey, b: GrantKey)
    requires CommaFree(a) && CommaFree(b)
    ensures SamePrint(a, b) <==> SameDotted(a, b)
  {
    hide Sort, AllDotted, Join;
    var sa, sb := Sort(AllDotted(a.tables)), Sort(AllDotted(b.tables));
    SortSorts(AllDotted(a.tables));
    SortSorts(AllDotted(b.tables));
    DottedIsPlain(a.tables);
    DottedIsPlain(b.tables);
    if SamePrint(a, b) {
      JoinInjective(sa, sb);
    } else if SameDotted(a, b) {
      SortedIsUnique(sa, sb);
    }
  }

  lemma NamesDiffer(a: Category, b: Category)
    ensures SEPARATOR !in a.Name() && SEPARATOR !in b.Name()
    ensures a.Name() == b.Name() ==> a == b
  {
    assert a.Name()[0] == b.Name()[0] || a.Name() != b.Name();
  }

  // ----- When a key is shared -----

  lemma {:induction false} DotsConcat(a: string, b: string)
    ensures Dots(a + b) == Dots(a) + Dots(b)
    decreases |a|
  {
    if a == "" {
      assert a + b == b;
    } else {
      assert (a + b)[1..] == a[1..] + b;
      DotsConcat(a[1..], b);
    }
  }

  lemma {:induction false} NoDots(s: string)
    ensures Dots(s) == 0 <==> '.' !in s
    decreases |s|
  {
    if s != "" {
      NoDots(s[1..]);
      assert s == [s[0]] + s[1..];
    }
  }

  lemma DotsOfDotted(t: TableId)
    ensures Dots(Dotted(t)) == 1 + Dots(t.schema) + Dots(t.table)
  {
    assert Dotted(t) == (t.schema + ".") + t.table;
    DotsConcat(t.schema + ".", t.table);
    DotsConcat(t.schema, ".");
    assert "."[1..] == "" && Dots(".") == 1 + Dots("");
  }

  /** A name with exactly one dot comes from one table only. */
  lemma OneDotIsInjective(s: TableId, t: TableId)
    requires Dotted(s) == Dotted(t) && Dots(Dotted(t)) == 1
    ensures s == t
  {
    DotsOfDotted(s);
    DotsOfDotted(t);
    NoDots(s.schema);
    NoDots(t.schema);
    assert s.schema + ['.'] + s.table == t.schema + ['.'] + t.table;
    FirstSplit('.', s.schema, s.table, t.schema, t.table);
  }

  /** A name with more dots comes from two tables at least. */
  lemma MoreDotsSplitTwice(t: TableId) returns (u: TableId)
    requires Dots(Dotted(t)) != 1
    ensures u != t && Dotted(u) == Dotted(t)
    ensures CommaFreeTable(t) ==> CommaFreeTable(u)
  {
    DotsOfDotted(t);
    hide Dots;
    if Dots(t.schema) != 0 {
      NoDots(t.schema);
      var a, b := SplitAtDot(t.schema);
      u := TableId(a, b + "." + t.table);
      assert Dotted(u) == a + "." + b + "." + t.table == Dotted(t);
    } else {
      NoDots(t.table);
      var a, b := SplitAtDot(t.table);
      u := TableId(t.schema + "." + a, b);
      assert Dotted(u) == t.schema + "." + (a + "." + b) == Dotted(t);
    }
  }

  lemma SplitAtDot(s: string) returns (a: string, b: string)
    requires '.' in s
    ensures s == a + "." + b && |a| < |s| && |b| < |s|
    ensures ',' !in s ==> ',' !in a && ',' !in b
  {
    var i :| 0 <= i < |s| && s[i] == '.';
    a, b := s[..i], s[i + 1..];
  }

  lemma TakeOut<T>(s: seq<T>, i: nat)
    requires i < |s|
    ensures multiset(s) == multiset(s[..i] + s[i + 1..]) + multiset{s[i]}
  {
    assert s == s[..i] + ([s[i]] + s[i + 1..]);
  }

  lemma Cancel<T>(a: multiset<T>, b: multiset<T>, x: T)
    requires a + multiset{x} == b + multiset{x}
    ensures a == b
  {
    assert a == (a + multiset{x}) - multiset{x} && b == (b + multiset{x}) - multiset{x};
  }

  lemma MultisetLength<T>(a: seq<T>, b: seq<T>)
    requires multiset(a) == multiset(b)
    ensures |a| == |b|
  {
    assert |a| == |multiset(a)| && |b| == |multiset(b)|;
  }

  lemma SomePlace<T>(a: seq<T>, b: seq<T>) returns (i: nat)
    requires multiset(a) == multiset(b) && a != []
    ensures i < |b| && b[i] == a[0]
  {
    assert a[0] in multiset(b);
    i :| 0 <= i < |b| && b[i] == a[0];
  }

  function Without(ts: seq<TableId>, i: nat): seq<TableId>
    requires i < |ts|
  {
    ts[..i] + ts[i + 1..]
  }

  lemma {:induction false} SameTablesSameDotted(a: seq<TableId>, b: seq<TableId>)
    requires multiset(a) == multiset(b)
    ensures multiset(AllDotted(a)) == multiset(AllDotted(b))
    decreases |a|
  {
    hide AllDotted;
    MultisetLength(a, b);
    if a == [] {
      assert b == [];
    } else {
      var i := SomePlace(a, b);
      TakeOut(a, 0);
      TakeOut(b, i);
      AllDottedTakeOut(a, 0);
      AllDottedTakeOut(b, i);
      var x, y := Without(a, 0), Without(b, i);
      Cancel(multiset(x), multiset(y), a[0]);
      WithoutIsPart(a, 0);
      hide Without;
      SameTablesSameDotted(x, y);
    }
  }

  lemma {:induction false} AllDottedAt(ts: seq<TableId>)
    ensures |AllDotted(ts)| == |ts| && forall i :: 0 <= i < |ts| ==> AllDotted(ts)[i] == Dotted(ts[i])
    decreases |ts|
  {
    if ts != [] {
      AllDottedAt(ts[1..]);
    }
  }

  lemma AllDottedTakeOut(b: seq<TableId>, i: nat)
    requires i < |b|
    ensures multiset(AllDotted(b)) == multiset(AllDotted(Without(b, i))) + multiset{Dotted(b[i])}
  {
    hide AllDotted, Dotted;
    AllDottedAt(b);
    AllDottedAt(Without(b, i));
    var d := AllDotted(b);
    assert AllDotted(Without(b, i)) == d[..i] + d[i + 1..];
    TakeOut(d, i);
  }

  lemma WithoutIsPart(ts: seq<TableId>, i: nat)
    requires i < |ts|
    ensures |Without(ts, i)| == |ts| - 1 && forall t :: t in Without(ts, i) ==> t in ts
  {
  }

  /** With one dot in each name of `b`, the dotted names give the tables back. */
  lemma {:induction false} OneDotGivesTables(a: seq<TableId>, b: seq<TableId>)
    requires multiset(AllDotted(a)) == multiset(AllDotted(b))
    requires forall t :: t in b ==> Dots(Dotted(t)) == 1
    ensures multiset(a) == multiset(b)
    decreases |a|
  {
    hide AllDotted, Dotted, Dots;
    AllDottedAt(a);
    AllDottedAt(b);
    MultisetLength(AllDotted(a), AllDotted(b));
    if a == [] {
      assert b == [];
    } else {
      var i := SomePlace(AllDotted(a), AllDotted(b));
      OneDotIsInjective(a[0], b[i]);
      TakeOut(a, 0);
      TakeOut(b, i);
      AllDottedTakeOut(a, 0);
      AllDottedTakeOut(b, i);
      var x, y := Without(a, 0), Without(b, i);
      Cancel(multiset(AllDotted(x)), multiset(AllDotted(y)), Dotted(a[0]));
      WithoutIsPart(b, i);
      hide Without;
      OneDotGivesTables(x, y);
      assert multiset(a) == multiset(x) + multiset{a[0]} && multiset(b) == multiset(y) + multiset{a[0]};
    }
  }

  lemma SameScopeSameDotted(a: GrantKey, b: GrantKey)
    ensures SameScope(a, b) ==> SameDotted(a, b)
    ensures SameDotted(a, b) && OneDotEach(b) ==> SameScope(a, b)
  {
    if SameScope(a, b) {
      SameTablesSameDotted(a.tables, b.tables);
    }
    if SameDotted(a, b) && OneDotEach(b) {
      OneDotGivesTables(a.tables, b.tables);
    }
  }

  /** The same scope prints alike, with or without commas. */
  lemma SameScopeSamePrint(a: GrantKey, b: GrantKey)
    requires SameScope(a, b)
    ensures SamePrint(a, b)
  {
    hide Sort, AllDotted, Join;
    SameTablesSameDotted(a.tables, b.tables);
    SortSorts(AllDotted(a.tables));
    SortSorts(AllDotted(b.tables));
    SortedIsUnique(Sort(AllDotted(a.tables)), Sort(AllDotted(b.tables)));
  }

  lemma Replaced(ts: seq<TableId>, i: nat, u: TableId)
    requires i < |ts| && u != ts[i] && Dotted(u) == Dotted(ts[i])
    ensures multiset(AllDotted(ts[i := u])) == multiset(AllDotted(ts)) && multiset(ts[i := u]) != multiset(ts)
  {
    hide AllDotted, Dotted;
    var rest := Without(ts, i);
    assert Without(ts[i := u], i) == rest;
    AllDottedTakeOut(ts, i);
    AllDottedTakeOut(ts[i := u], i);
    assert multiset(ts[i := u]) == multiset(ts) - multiset{ts[i]} + multiset{u};
    assert multiset(ts[i := u])[u] == multiset(ts)[u] + 1;
  }

  // Among scopes without commas.

  /** Another scope without commas under the key of `k`. */
  lemma AnotherCommaFreeScope(k: GrantKey) returns (other: GrantKey)
    requires CommaFree(k) && !OneDotEach(k)
    ensures CommaFree(other) && Canonical(other) == Canonical(k) && !SameScope(other, k)
  {
    hide AllDotted, Dotted, Dots, Canonical, Printed;
    var i :| 0 <= i < |k.tables| && Dots(Dotted(k.tables[i])) != 1;
    var t := k.tables[i];
    var u := MoreDotsSplitTwice(t);
    other := k.(tables := k.tables[i := u]);
    Replaced(k.tables, i, u);
    assert CommaFree(other) by {
      assert t in k.tables && forall x :: x in other.tables ==> x == u || x in k.tables;
    }
    PrintedIff(other, k);
    CanonicalIff(other, k);
  }

  ghost predicate SharedByNoCommaFree(k: GrantKey) {
    forall other :: CommaFree(other) && Canonical(other) == Canonical(k) ==> SameScope(other, k)
  }

  /** As long as no name has a comma, a key belongs to one scope alone exactly when each of its dotted names has
      one dot. */
  lemma CommaFreeKeyIsItsOwnIff(k: GrantKey)
    requires CommaFree(k)
    ensures SharedByNoCommaFree(k) <==> OneDotEach(k)
  {
    if OneDotEach(k) {
      forall other | CommaFree(other) && Canonical(other) == Canonical(k) ensures SameScope(other, k) {
        CanonicalIff(other, k);
        PrintedIff(other, k);
        SameScopeSameDotted(other, k);
      }
    } else {
      var other := AnotherCommaFreeScope(k);
    }
  }

  // Among all scopes.

  lemma {:induction false} JoinDots(xs: seq<string>)
    requires forall x :: x in xs ==> Dots(x) >= 1
    ensures Dots(Join(xs)) >= |xs|
    decreases |xs|
  {
    if |xs| == 1 {
      assert xs[0] in xs;
    } else if |xs| > 1 {
      hide Dots;
      assert xs[0] in xs && forall x :: x in xs[1..] ==> x in xs;
      JoinDots(xs[1..]);
      DotsConcat(xs[0] + ",", Join(xs[1..]));
      DotsConcat(xs[0], ",");
    }
  }

  /** Every table brings a dot. */
  lemma PrintedDots(ts: seq<TableId>)
    ensures Dots(Printed(ts)) >= |ts|
    ensures |ts| == 1 ==> Printed(ts) == Dotted(ts[0])
    ensures ts == [] ==> Printed(ts) == ""
  {
    hide Sort, Join, Dots, Dotted, AllDotted;
    SortSorts(AllDotted(ts));
    AllDottedAt(ts);
    var xs := Sort(AllDotted(ts));
    assert |xs| == |multiset(xs)| == |multiset(AllDotted(ts))| == |AllDotted(ts)|;
    forall x | x in xs ensures Dots(x) >= 1 {
      assert x in multiset(AllDotted(ts));
      DottedSource(ts, x);
      var t :| t in ts && Dotted(t) == x;
      DotsOfDotted(t);
    }
    JoinDots(xs);
    PrintedFew(ts);
  }

  lemma PrintedFew(ts: seq<TableId>)
    ensures |ts| == 1 ==> Printed(ts) == Dotted(ts[0])
    ensures ts == [] ==> Printed(ts) == ""
  {
    if |ts| == 1 {
      AllDottedAt(ts);
      assert AllDotted(ts) == [Dotted(ts[0])];
      SortOne(Dotted(ts[0]));
    }
  }

  /** Another scope under the key of `k`: its whole list of tables can be read as one table. */
  lemma AnotherScope(k: GrantKey) returns (other: GrantKey)
    requires Separated(k) && !LoneTable(k)
    ensures Separated(other) && Canonical(other) == Canonical(k) && !SameScope(other, k)
  {
    hide Dots, Dotted, Printed;
    var u: TableId;
    PrintedDots(k.tables);
    if |k.tables| == 1 {
      u := MoreDotsSplitTwice(k.tables[0]);
      assert [u][0] != k.tables[0] && u in multiset([u]) && u !in multiset(k.tables);
    } else {
      NoDots(Printed(k.tables));
      var a, b := SplitAtDot(Printed(k.tables));
      u := TableId(a, b);
      DottedSplit(u, Printed(k.tables));
      assert |multiset([u])| == 1 && |multiset(k.tables)| == |k.tables|;
    }
    other := k.(tables := [u]);
    PrintedDots([u]);
    CanonicalIff(other, k);
  }

  lemma DottedSplit(t: TableId, s: string)
    requires s == t.schema + "." + t.table
    ensures Dotted(t) == s
  {
  }

  ghost predicate SharedOnlyBySame(k: GrantKey) {
    forall other :: Separated(other) && Canonical(other) == Canonical(k) ==> SameScope(other, k)
  }

  /** A key belongs to one scope alone exactly when it is for one table at most, without a dot in its names. */
  lemma KeyIsItsOwnIff(k: GrantKey)
    requires Separated(k)
    ensures SharedOnlyBySame(k) <==> LoneTable(k)
  {
    if LoneTable(k) {
      forall other | Separated(other) && Canonical(other) == Canonical(k) ensures SameScope(other, k) {
        OnlyLoneTable(k, other);
      }
    } else {
      var other := AnotherScope(k);
    }
  }

  lemma OnlyLoneTable(k: GrantKey, other: GrantKey)
    requires LoneTable(k) && Separated(k) && Separated(other) && Canonical(other) == Canonical(k)
    ensures SameScope(other, k)
  {
    hide Dots, Dotted, Printed;
    CanonicalIff(other, k);
    PrintedDots(k.tables);
    PrintedDots(other.tables);
    if k.tables == [] {
      NoDots("");
    } else {
      var t := k.tables[0];
      assert t in k.tables && Dots(Dotted(t)) == 1;
      NoDots(Dotted(t));
      assert other.tables != [];
      OneDotIsInjective(other.tables[0], t);
      assert other.tables == [t] && k.tables == [t];
    }
  }

  /** Commas are worse: one table can print as two. */
  lemma CommasCollide() returns (a: GrantKey, b: GrantKey)
    ensures Canonical(a) == Canonical(b) && |a.tables| == 2 && |b.tables| == 1
  {
    var t, v := TableId("a", "b"), TableId("a", "b,a.b");
    a, b := GrantKey("k", Write, [t, t]), GrantKey("k", Write, [v]);
    assert Dotted(t) == "a.b" && Dotted(v) == "a.b,a.b";
    assert [t, t][1..] == [t] && [t][1..] == [];
    assert AllDotted([t]) == [Dotted(t)] + AllDotted([]) && AllDotted([v]) == [Dotted(v)] + AllDotted([]);
    assert AllDotted([t, t]) == ["a.b", "a.b"] && AllDotted([v]) == ["a.b,a.b"];
    SortTwo("a.b");
    SortOne("a.b,a.b");
    var two := ["a.b", "a.b"];
    assert two[1..] == ["a.b"] && Join(two) == two[0] + "," + Join(two[1..]) == "a.b,a.b";
  }

  lemma SortOne(x: string)
    ensures Sort([x]) == [x]
  {
    assert [x][1..] == [];
    assert Sort([]) == [];
  }

  lemma SortTwo(x: string)
    ensures Sort([x, x]) == [x, x]
  {
    assert [x, x][1..] == [x];
    SortOne(x);
    AtMostTotal(x, x);
  }

  // ----- The engine -----

  datatype Grant = Grant(key: GrantKey, expiresAt: nat)

  type Sessions = map<string, Grant>

  /** Empty filter fields match everything. */
  datatype Filter = Filter(connection: Option<string>, category: Option<Category>) {
    predicate Matches(k: GrantKey) {
      && (connection.Some? ==> k.connection == connection.value)
      && (category.Some? ==> k.category == category.value)
    }
  }

  function Granted(sessions: Sessions, k: GrantKey, now: nat): Sessions {
    sessions[Canonical(k) := Grant(k, now + SESSION_TTL)]
  }

  function Queried(sessions: Sessions, k: GrantKey, now: nat): (Sessions, bool) {
    var c := Canonical(k);
    if c !in sessions then (sessions, false)
    else if now <= sessions[c].expiresAt then (sessions, true)
    else (sessions - {c}, false)
  }

  function Revoked(sessions: Sessions, f: Filter): Sessions {
    map c | c in sessions && !f.Matches(sessions[c].key) :: sessions[c]
  }

  class ApprovalEngine {
    var sessions: Sessions

    constructor ()
      ensures sessions == map[]
    {
      sessions := map[];
    }

    method GrantSession(k: GrantKey, now: nat) returns (expiresAt: nat)
      modifies this
      ensures sessions == Granted(old(sessions), k, now) && expiresAt == now + 1800
    {
      expiresAt := now + SESSION_TTL;
      sessions := sessions[Canonical(k) := Grant(k, expiresAt)];
    }

    method SessionCovers(k: GrantKey, now: nat) returns (covered: bool)
      modifies this
      ensures (sessions, covered) == Queried(old(sessions), k, now)
    {
      var c := Canonical(k);
      if c in sessions {
        if now <= sessions[c].expiresAt {
          return true;
        }
        sessions := sessions - {c};
      }
      return false;
    }

    method RevokeSessions(f: Filter) returns (n: nat)
      modifies this
      ensures sessions == Revoked(old(sessions), f)
      ensures n == |old(sessions)| - |sessions|
      ensures n == |set c | c in old(sessions) && f.Matches(old(sessions)[c].key)|
      ensures f == Filter(None, None) ==> sessions == map[] && n == |old(sessions)|
    {
      var before := sessions;
      sessions := map c | c in sessions && !f.Matches(sessions[c].key) :: sessions[c];
      ghost var gone := set c | c in before && f.Matches(before[c].key);
      assert before.Keys == sessions.Keys + gone && sessions.Keys !! gone;
      n := |before| - |sessions|;
    }
  }

  // ----- Histories -----

  datatype Event =
    | Allow(key: GrantKey, at: nat)
    | Ask(key: GrantKey, at: nat)
    | Revoke(filter: Filter)

  function After(events: seq<Event>): Sessions {
    if events == [] then map[] else
      var before, n := After(events[..|events| - 1]), |events| - 1;
      match events[n]
      case Allow(k, at) => Granted(before, k, at)
      case Ask(k, at) => Queried(before, k, at).0
      case Revoke(f) => Revoked(before, f)
  }

  /** When the latest grant that is `same` as `k` ends, unless it was revoked since. */
  function Latest(events: seq<Event>, k: GrantKey, same: (GrantKey, GrantKey) -> bool): Option<nat> {
    if events == [] then None else
      var before := Latest(events[..|events| - 1], k, same);
      match events[|events| - 1]
      case Allow(g, at) => if same(g, k) then Some(at + SESSION_TTL) else before
      case Ask(_, _) => before
      case Revoke(f) => if f.Matches(k) then None else before
  }

  /** The clock: no event is earlier than `now`, and the events are in order of time. */
  ghost predicate InOrder(events: seq<Event>, now: nat) {
    events != [] ==>
      var e := events[|events| - 1];
      && (!e.Revoke? ==> e.at <= now)
      && InOrder(events[..|events| - 1], if e.Revoke? then now else e.at)
  }

  ghost predicate AllSeparated(events: seq<Event>) {
    forall i :: 0 <= i < |events| && !events[i].Revoke? ==> Separated(events[i].key)
  }

  ghost predicate AllCommaFree(events: seq<Event>) {
    forall i :: 0 <= i < |events| && !events[i].Revoke? ==> CommaFree(events[i].key)
  }

  /** The map agrees with the history about `k`, as far as anyone asking from `now` on can tell. */
  ghost predicate Agrees(events: seq<Event>, k: GrantKey, now: nat) {
    var m, c, latest := After(events), Canonical(k), Latest(events, k, SamePrint);
    && (c in m ==> SamePrint(m[c].key, k) && latest == Some(m[c].expiresAt))
    && (c !in m && latest.Some? ==> latest.value < now)
  }

  lemma {:induction false} MapAgrees(events: seq<Event>, k: GrantKey, now: nat)
    requires Separated(k) && AllSeparated(events) && InOrder(events, now)
    ensures Agrees(events, k, now)
    decreases |events|
  {
    hide Canonical, SamePrint;
    if events != [] {
      var before, e := events[..|events| - 1], events[|events| - 1];
      var since := if e.Revoke? then now else e.at;
      MapAgrees(before, k, since);
      match e {
        case Allow(g, at) =>
          CanonicalIff(g, k);
        case Ask(g, at) =>
          CanonicalIff(g, k);
        case Revoke(f) =>
          SameFate(f, k);
      }
    }
  }

  lemma SameFate(f: Filter, k: GrantKey)
    ensures forall g :: SamePrint(g, k) ==> (f.Matches(g) <==> f.Matches(k))
  {
  }

  /** In every history of grants, questions and revocations, with a clock that never runs backwards, a
      session covers a request exactly when the latest grant of that connection and category whose tables
      print alike has neither been revoked nor run out. */
  lemma CoversIffLatestGrantHolds(events: seq<Event>, k: GrantKey, now: nat)
    requires Separated(k) && AllSeparated(events) && InOrder(events, now)
    ensures var latest := Latest(events, k, SamePrint);
            Queried(After(events), k, now).1 <==> latest.Some? && now <= latest.value
  {
    MapAgrees(events, k, now);
  }

  // ----- What a revocation ends -----

  /** Every grant is stored under its own key. */
  ghost predicate Filed(sessions: Sessions) {
    forall c :: c in sessions ==> c == Canonical(sessions[c].key) && Separated(sessions[c].key)
  }

  lemma {:induction false} AlwaysFiled(events: seq<Event>)
    requires AllSeparated(events)
    ensures Filed(After(events))
    decreases |events|
  {
    hide Canonical;
    if events != [] {
      AlwaysFiled(events[..|events| - 1]);
    }
  }

  /** No grant in `events` prints like `k`. */
  ghost predicate NotGranted(events: seq<Event>, k: GrantKey) {
    forall i :: 0 <= i < |events| && events[i].Allow? ==> !SamePrint(events[i].key, k)
  }

  lemma {:induction false} StaysUncovered(events: seq<Event>, later: seq<Event>, k: GrantKey)
    requires Separated(k) && AllSeparated(later) && NotGranted(later, k)
    requires Canonical(k) !in After(events)
    ensures Canonical(k) !in After(events + later)
    decreases |later|
  {
    hide Canonical, SamePrint, Separated;
    if later == [] {
      assert events + later == events;
    } else {
      var n := |later| - 1;
      assert (events + later)[..|events + later| - 1] == events + later[..n];
      StaysUncovered(events, later[..n], k);
      if later[n].Allow? {
        CanonicalIff(later[n].key, k);
      }
    }
  }

  lemma OneMore(events: seq<Event>, e: Event)
    ensures (events + [e])[..|events|] == events
  {
  }

  /** A revocation for a connection and a category, each or both left open, ends the coverage of every request of
      that connection and category until it is granted anew, and changes no other request's coverage. */
  lemma RevocationEndsCoverage(events: seq<Event>, connection: Option<string>, category: Option<Category>,
                               later: seq<Event>, k: GrantKey, now: nat)
    requires Separated(k) && AllSeparated(events) && AllSeparated(later) && NotGranted(later, k)
    ensures var revoked := events + [Revoke(Filter(connection, category))];
            if && (connection.None? || connection == Some(k.connection))
               && (category.None? || category == Some(k.category))
            then !Queried(After(revoked + later), k, now).1
            else Queried(After(revoked), k, now).1 == Queried(After(events), k, now).1
  {
    hide Canonical;
    var f := Filter(connection, category);
    var revoked := events + [Revoke(f)];
    var c := Canonical(k);
    OneMore(events, Revoke(f));
    AlwaysFiled(events);
    assert After(revoked) == Revoked(After(events), f);
    if c in After(events) {
      CanonicalIff(After(events)[c].key, k);
    }
    if (connection.None? || connection == Some(k.connection)) && (category.None? || category == Some(k.category)) {
      StaysUncovered(revoked, later, k);
    }
  }

  /** A revocation that names nothing leaves nothing. */
  lemma EmptyFilterRevokesAll(events: seq<Event>)
    ensures After(events + [Revoke(Filter(None, None))]) == map[]
  {
    OneMore(events, Revoke(Filter(None, None)));
  }

  /** Two ways to look for the latest grant that find the same for every grant of the history. */
  lemma {:induction false} LatestAgrees(events: seq<Event>, k: GrantKey, a: (GrantKey, GrantKey) -> bool,
                                        b: (GrantKey, GrantKey) -> bool)
    requires forall i :: 0 <= i < |events| && events[i].Allow? ==> (a(events[i].key, k) <==> b(events[i].key, k))
    ensures Latest(events, k, a) == Latest(events, k, b)
    decreases |events|
  {
    if events != [] {
      LatestAgrees(events[..|events| - 1], k, a, b);
    }
  }

  ghost predicate CoveredByOwnGrant(events: seq<Event>, k: GrantKey, now: nat) {
    var latest := Latest(events, k, SameScope);
    Queried(After(events), k, now).1 <==> latest.Some? && now <= latest.value
  }

  lemma OwnGrantDecides(events: seq<Event>, k: GrantKey, now: nat)
    requires Separated(k) && AllSeparated(events) && InOrder(events, now)
    requires forall i :: 0 <= i < |events| && events[i].Allow? ==>
               (SameScope(events[i].key, k) <==> SamePrint(events[i].key, k))
    ensures CoveredByOwnGrant(events, k, now)
  {
    hide SameScope, SamePrint;
    CoversIffLatestGrantHolds(events, k, now);
    LatestAgrees(events, k, SameScope, SamePrint);
  }

  /** A single grant of another scope with the same key covers the request. */
  lemma OtherGrantCovers(k: GrantKey, other: GrantKey) returns (events: seq<Event>)
    requires Canonical(other) == Canonical(k) && !SameScope(other, k)
    ensures events == [Allow(other, 0)] && InOrder(events, 0) && !CoveredByOwnGrant(events, k, 0)
  {
    events := [Allow(other, 0)];
    assert events[..0] == [];
    assert Latest(events, k, SameScope) == None;
    assert Queried(After(events), k, 0).1;
  }

  ghost predicate OwnGrantsAlways(k: GrantKey) {
    forall events, now :: AllSeparated(events) && InOrder(events, now) ==> CoveredByOwnGrant(events, k, now)
  }

  /** A request is covered by grants of exactly its own tables, in every history, if and only if it is for one
      table at most, without a dot in its names. */
  lemma CoveredByOwnGrantIff(k: GrantKey)
    requires Separated(k)
    ensures OwnGrantsAlways(k) <==> LoneTable(k)
  {
    if LoneTable(k) {
      forall events: seq<Event>, now: nat | AllSeparated(events) && InOrder(events, now)
        ensures CoveredByOwnGrant(events, k, now)
      {
        forall i | 0 <= i < |events| && events[i].Allow?
          ensures SameScope(events[i].key, k) <==> SamePrint(events[i].key, k)
        {
          KeyIsItsOwnIff(k);
          CanonicalIff(events[i].key, k);
          if SameScope(events[i].key, k) {
            SameScopeSamePrint(events[i].key, k);
          }
        }
        OwnGrantDecides(events, k, now);
      }
    } else {
      var other := AnotherScope(k);
      var events := OtherGrantCovers(k, other);
    }
  }

  ghost predicate OwnGrantsWithoutCommas(k: GrantKey) {
    forall events, now :: AllCommaFree(events) && InOrder(events, now) ==> CoveredByOwnGrant(events, k, now)
  }

  /** In histories without commas it is enough, and needed, that each dotted name has one dot. */
  lemma CommaFreeCoverageIff(k: GrantKey)
    requires CommaFree(k)
    ensures OwnGrantsWithoutCommas(k) <==> OneDotEach(k)
  {
    if OneDotEach(k) {
      forall events: seq<Event>, now: nat | AllCommaFree(events) && InOrder(events, now)
        ensures CoveredByOwnGrant(events, k, now)
      {
        forall i | 0 <= i < |events| && events[i].Allow?
          ensures SameScope(events[i].key, k) <==> SamePrint(events[i].key, k)
        {
          PrintedIff(events[i].key, k);
          SameScopeSameDotted(events[i].key, k);
        }
        OwnGrantDecides(events, k, now);
      }
    } else {
      var other := AnotherCommaFreeScope(k);
      var events := OtherGrantCovers(k, other);
    }
  }
}
