/**
 The object-graph walk (src/policy/classifier.rs): which tables a query reads, and whether it locks.
 Policy is decided on what this walk collects.
*/
module ObjectGraph {
  import opened Wrappers
  import opened RenamePlan

  // ----- The syntax tree, reduced to what carries tables -----

  // What the walk passes over is part of the tree too: the fields `rest`, `on`, `over` and `parts`.

  /** `locks`: FOR UPDATE and the like. `rest`: LIMIT, OFFSET, FETCH. */
  datatype Query = Query(locks: bool, ctes: seq<Cte>, orderBy: seq<Expr>, body: Body, rest: seq<Expr>)

  datatype Cte = Cte(name: string, query: Query)

  /** An optional clause is a list of at most one expression. `rest` of a SELECT: DISTINCT ON, named windows,
      QUALIFY and the like. Other bodies are TABLE t, VALUES and statements that change data. */
  datatype Body =
    | Select(from: seq<From>, selection: seq<Expr>, projection: seq<Expr>, groupBy: seq<Expr>,
             having: seq<Expr>, sortBy: seq<Expr>, rest: seq<Expr>)
    | Parenthesized(query: Query)
    | SetOperation(left: Body, right: Body)
    | OtherBody(tables: seq<TableRef>, parts: seq<Expr>)

  datatype From = From(relation: Factor, joins: seq<Join>)

  datatype Join = Join(relation: Factor, on: seq<Expr>)

  /** Other factors are table functions, UNNEST, PIVOT and the like. */
  datatype Factor =
    | Table(ref: TableRef)
    | Derived(query: Query)
    | NestedJoin(inner: From)
    | OtherFactor(factors: seq<Factor>, parts: seq<Expr>)

  /** `Branch`: every shape whose expressions the walk follows; `Other`: every shape it does not, such as
      identifiers, literals and intervals. `over`: the window of a function. */
  datatype Expr =
    | Subquery(query: Query)
    | Exists(query: Query)
    | InSubquery(expr: Expr, query: Query)
    | Branch(children: seq<Expr>)
    | Function(parameters: Args, args: Args, filter: seq<Expr>, over: seq<Expr>)
    | Other(parts: seq<Expr>)

  datatype Args =
    | NoArgs
    | QueryArgs(query: Query)
    | ListArgs(args: seq<Expr>, orderBy: seq<Expr>, rest: seq<Expr>)

  // ----- The walk -----

  datatype Graph = Graph(read: set<TableRef>, cteNames: set<string>, locking: bool)

  const EMPTY := Graph({}, {}, false)

  function AddTable(g: Graph, ref: TableRef): Graph {
    if ref.table in g.cteNames then g else g.(read := g.read + {ref})
  }

  function WalkFactor(g: Graph, f: Factor): Graph
    decreases f, 1
  {
    match f
    case Table(ref) => AddTable(g, ref)
    case Derived(q) => WalkQuery(g, q)
    case NestedJoin(inner) => WalkFactor(WalkJoins(g, inner.joins), inner.relation)
    case OtherFactor(_, _) => g
  }

  function WalkJoins(g: Graph, joins: seq<Join>): Graph
    decreases joins, 0
  {
    if joins == [] then g
    else WalkFactor(WalkJoins(g, joins[..|joins| - 1]), joins[|joins| - 1].relation)
  }

  function WalkFrom(g: Graph, f: From): Graph
    decreases f, 1
  {
    WalkJoins(WalkFactor(g, f.relation), f.joins)
  }

  function WalkFroms(g: Graph, froms: seq<From>): Graph
    decreases froms, 0
  {
    if froms == [] then g else WalkFrom(WalkFroms(g, froms[..|froms| - 1]), froms[|froms| - 1])
  }

  function WalkCtes(g: Graph, ctes: seq<Cte>): Graph
    decreases ctes, 0
  {
    if ctes == [] then g else
      var before, cte := WalkCtes(g, ctes[..|ctes| - 1]), ctes[|ctes| - 1];
      WalkQuery(before.(cteNames := before.cteNames + {cte.name}), cte.query)
  }

  function WalkQuery(g: Graph, q: Query): Graph
    decreases q, 1
  {
    var g1 := if q.locks then g.(locking := true) else g;
    WalkBody(WalkExprs(WalkCtes(g1, q.ctes), q.orderBy), q.body)
  }

  function WalkBody(g: Graph, b: Body): Graph
    decreases b, 1
  {
    match b
    case Select(from, selection, projection, groupBy, having, sortBy, _) =>
      var g1 := WalkExprs(WalkFroms(g, from), selection);
      WalkExprs(WalkExprs(WalkExprs(WalkExprs(g1, projection), groupBy), having), sortBy)
    case Parenthesized(q) => WalkQuery(g, q)
    case SetOperation(left, right) => WalkBody(WalkBody(g, left), right)
    case OtherBody(_, _) => g
  }

  function WalkExprs(g: Graph, es: seq<Expr>): Graph
    decreases es, 0
  {
    if es == [] then g else WalkExpr(WalkExprs(g, es[..|es| - 1]), es[|es| - 1])
  }

  function WalkExpr(g: Graph, e: Expr): Graph
    decreases e, 1
  {
    match e
    case Subquery(q) => WalkQuery(g, q)
    case Exists(q) => WalkQuery(g, q)
    case InSubquery(inner, q) => WalkQuery(WalkExpr(g, inner), q)
    case Branch(children) => WalkExprs(g, children)
    case Function(parameters, args, filter, _) => WalkExprs(WalkArgs(WalkArgs(g, parameters), args), filter)
    case Other(_) => g
  }

  function WalkArgs(g: Graph, a: Args): Graph
    decreases a, 1
  {
    match a
    case NoArgs => g
    case QueryArgs(q) => WalkQuery(g, q)
    case ListArgs(args, orderBy, _) => WalkExprs(WalkExprs(g, args), orderBy)
  }

  /** The collector as the code has it, updated in place while it recurses. */
  class Collector {
    var read: set<TableRef>
    var cteNames: set<string>
    var locking: bool

    function Value(): Graph
      reads this
    {
      Graph(read, cteNames, locking)
    }

    constructor ()
      ensures Value() == EMPTY
    {
      read, cteNames, locking := {}, {}, false;
    }

    method AddTableFactor(f: Factor)
      modifies this
      ensures Value() == WalkFactor(old(Value()), f)
      decreases f, 1
    {
      match f {
        case Table(ref) =>
          if ref.table !in cteNames {
            read := read + {ref};
          }
        case Derived(q) => DoQuery(q);
        case NestedJoin(inner) =>
          DoJoins(inner.joins);
          AddTableFactor(inner.relation);
        case OtherFactor(_, _) =>
      }
    }

    method DoJoins(joins: seq<Join>)
      modifies this
      ensures Value() == WalkJoins(old(Value()), joins)
      decreases joins, 0
    {
      for i := 0 to |joins|
        invariant Value() == WalkJoins(old(Value()), joins[..i])
      {
        assert joins[..i + 1][..i] == joins[..i];
        AddTableFactor(joins[i].relation);
      }
      assert joins[..|joins|] == joins;
    }

    method AddTableWithJoins(f: From)
      modifies this
      ensures Value() == WalkFrom(old(Value()), f)
      decreases f, 1
    {
      AddTableFactor(f.relation);
      DoJoins(f.joins);
    }

    method DoQuery(q: Query)
      modifies this
      ensures Value() == WalkQuery(old(Value()), q)
      decreases q, 1
    {
      if q.locks {
        locking := true;
      }
      ghost var start := Value();
      for i := 0 to |q.ctes|
        invariant Value() == WalkCtes(start, q.ctes[..i])
      {
        assert q.ctes[..i + 1][..i] == q.ctes[..i];
        cteNames := cteNames + {q.ctes[i].name};
        DoQuery(q.ctes[i].query);
      }
      assert q.ctes[..|q.ctes|] == q.ctes;
      DoExprs(q.orderBy);
      DoSetExpr(q.body);
    }

    method DoSetExpr(b: Body)
      modifies this
      ensures Value() == WalkBody(old(Value()), b)
      decreases b, 1
    {
      match b {
        case Select(from, selection, projection, groupBy, having, sortBy, _) =>
          for i := 0 to |from|
            invariant Value() == WalkFroms(old(Value()), from[..i])
          {
            assert from[..i + 1][..i] == from[..i];
            AddTableWithJoins(from[i]);
          }
          assert from[..|from|] == from;
          DoExprs(selection);
          DoExprs(projection);
          DoExprs(groupBy);
          DoExprs(having);
          DoExprs(sortBy);
        case Parenthesized(q) => DoQuery(q);
        case SetOperation(left, right) =>
          DoSetExpr(left);
          DoSetExpr(right);
        case OtherBody(_, _) =>
      }
    }

    method DoExprs(es: seq<Expr>)
      modifies this
      ensures Value() == WalkExprs(old(Value()), es)
      decreases es, 0
    {
      for i := 0 to |es|
        invariant Value() == WalkExprs(old(Value()), es[..i])
      {
        assert es[..i + 1][..i] == es[..i];
        DoExpr(es[i]);
      }
      assert es[..|es|] == es;
    }

    method DoExpr(e: Expr)
      modifies this
      ensures Value() == WalkExpr(old(Value()), e)
      decreases e, 1
    {
      match e {
        case Subquery(q) => DoQuery(q);
        case Exists(q) => DoQuery(q);
        case InSubquery(inner, q) =>
          DoExpr(inner);
          DoQuery(q);
        case Branch(children) => DoExprs(children);
        case Function(parameters, args, filter, _) =>
          DoFunctionArguments(parameters);
          DoFunctionArguments(args);
          DoExprs(filter);
        case Other(_) =>
      }
    }

    method DoFunctionArguments(a: Args)
      modifies this
      ensures Value() == WalkArgs(old(Value()), a)
      decreases a, 1
    {
      match a {
        case NoArgs =>
        case QueryArgs(q) => DoQuery(q);
        case ListArgs(args, orderBy, _) =>
          DoExprs(args);
          DoExprs(orderBy);
      }
    }
  }

  // ----- What the query contains -----

  /** Something a query can contain: a table, the declaration of a CTE name, a lock. */
  datatype Thing = See(ref: TableRef) | Declare(name: string) | Lock

  /** `t` is somewhere in the query, at any depth, where the walk comes by. */
  predicate InQuery(t: Thing, q: Query)
    decreases q, 1
  {
    || (t.Lock? && q.locks)
    || InCtes(t, q.ctes)
    || InExprs(t, q.orderBy)
    || InBody(t, q.body)
  }

  predicate InCtes(t: Thing, ctes: seq<Cte>)
    decreases ctes, 0
  {
    exists i :: 0 <= i < |ctes| && (t == Declare(ctes[i].name) || InQuery(t, ctes[i].query))
  }

  predicate InBody(t: Thing, b: Body)
    decreases b, 1
  {
    match b
    case Select(from, selection, projection, groupBy, having, sortBy, _) =>
      || InFroms(t, from)
      || InExprs(t, selection) || InExprs(t, projection) || InExprs(t, groupBy)
      || InExprs(t, having) || InExprs(t, sortBy)
    case Parenthesized(q) => InQuery(t, q)
    case SetOperation(left, right) => InBody(t, left) || InBody(t, right)
    case OtherBody(_, _) => false
  }

  predicate InFroms(t: Thing, froms: seq<From>)
    decreases froms, 0
  {
    exists i :: 0 <= i < |froms| && InFrom(t, froms[i])
  }

  predicate InFrom(t: Thing, f: From)
    decreases f, 1
  {
    InFactor(t, f.relation) || InJoins(t, f.joins)
  }

  predicate InJoins(t: Thing, joins: seq<Join>)
    decreases joins, 0
  {
    exists i :: 0 <= i < |joins| && InFactor(t, joins[i].relation)
  }

  predicate InFactor(t: Thing, f: Factor)
    decreases f, 1
  {
    match f
    case Table(ref) => t == See(ref)
    case Derived(q) => InQuery(t, q)
    case NestedJoin(inner) => InFrom(t, inner)
    case OtherFactor(_, _) => false
  }

  predicate InExprs(t: Thing, es: seq<Expr>)
    decreases es, 0
  {
    exists i :: 0 <= i < |es| && InExpr(t, es[i])
  }

  predicate InExpr(t: Thing, e: Expr)
    decreases e, 1
  {
    match e
    case Subquery(q) => InQuery(t, q)
    case Exists(q) => InQuery(t, q)
    case InSubquery(inner, q) => InExpr(t, inner) || InQuery(t, q)
    case Branch(children) => InExprs(t, children)
    case Function(parameters, args, filter, _) => InArgs(t, parameters) || InArgs(t, args) || InExprs(t, filter)
    case Other(_) => false
  }

  predicate InArgs(t: Thing, a: Args)
    decreases a, 1
  {
    match a
    case NoArgs => false
    case QueryArgs(q) => InQuery(t, q)
    case ListArgs(args, orderBy, _) => InExprs(t, args) || InExprs(t, orderBy)
  }

  // ----- Which occurrences come early enough -----

  /** What holds of one part, or of the next if the first declares nothing. */
  predicate First(early: bool, declares: bool, next: bool) {
    early || (!declares && next)
  }

  /** In the order of the walk, `r` occurs before any declaration of its name. The joined tables of a
      parenthesized join come before its first table. */
  predicate EarlyQuery(r: TableRef, q: Query)
    decreases q, 1
  {
    var d := Declare(r.table);
    First(EarlyCtes(r, q.ctes), InCtes(d, q.ctes),
          First(EarlyExprs(r, q.orderBy), InExprs(d, q.orderBy), EarlyBody(r, q.body)))
  }

  predicate EarlyCtes(r: TableRef, ctes: seq<Cte>)
    decreases ctes, 0
  {
    exists i :: 0 <= i < |ctes| && ctes[i].name != r.table && EarlyQuery(r, ctes[i].query)
                && forall j :: 0 <= j < i ==> ctes[j].name != r.table && !InQuery(Declare(r.table), ctes[j].query)
  }

  predicate EarlyBody(r: TableRef, b: Body)
    decreases b, 1
  {
    var d := Declare(r.table);
    match b
    case Select(from, selection, projection, groupBy, having, sortBy, _) =>
      First(EarlyFroms(r, from), InFroms(d, from),
            First(EarlyExprs(r, selection), InExprs(d, selection),
                  First(EarlyExprs(r, projection), InExprs(d, projection),
                        First(EarlyExprs(r, groupBy), InExprs(d, groupBy),
                              First(EarlyExprs(r, having), InExprs(d, having), EarlyExprs(r, sortBy))))))
    case Parenthesized(q) => EarlyQuery(r, q)
    case SetOperation(left, right) => First(EarlyBody(r, left), InBody(d, left), EarlyBody(r, right))
    case OtherBody(_, _) => false
  }

  predicate EarlyFroms(r: TableRef, froms: seq<From>)
    decreases froms, 0
  {
    exists i :: 0 <= i < |froms| && EarlyFrom(r, froms[i])
                && forall j :: 0 <= j < i ==> !InFrom(Declare(r.table), froms[j])
  }

  predicate EarlyFrom(r: TableRef, f: From)
    decreases f, 1
  {
    First(EarlyFactor(r, f.relation), InFactor(Declare(r.table), f.relation), EarlyJoins(r, f.joins))
  }

  predicate EarlyJoins(r: TableRef, joins: seq<Join>)
    decreases joins, 0
  {
    exists i :: 0 <= i < |joins| && EarlyFactor(r, joins[i].relation)
                && forall j :: 0 <= j < i ==> !InFactor(Declare(r.table), joins[j].relation)
  }

  predicate EarlyFactor(r: TableRef, f: Factor)
    decreases f, 1
  {
    match f
    case Table(ref) => r == ref
    case Derived(q) => EarlyQuery(r, q)
    case NestedJoin(inner) =>
      First(EarlyJoins(r, inner.joins), InJoins(Declare(r.table), inner.joins), EarlyFactor(r, inner.relation))
    case OtherFactor(_, _) => false
  }

  predicate EarlyExprs(r: TableRef, es: seq<Expr>)
    decreases es, 0
  {
    exists i :: 0 <= i < |es| && EarlyExpr(r, es[i]) && forall j :: 0 <= j < i ==> !InExpr(Declare(r.table), es[j])
  }

  predicate EarlyExpr(r: TableRef, e: Expr)
    decreases e, 1
  {
    var d := Declare(r.table);
    match e
    case Subquery(q) => EarlyQuery(r, q)
    case Exists(q) => EarlyQuery(r, q)
    case InSubquery(inner, q) => First(EarlyExpr(r, inner), InExpr(d, inner), EarlyQuery(r, q))
    case Branch(children) => EarlyExprs(r, children)
    case Function(parameters, args, filter, _) =>
      First(EarlyArgs(r, parameters), InArgs(d, parameters),
            First(EarlyArgs(r, args), InArgs(d, args), EarlyExprs(r, filter)))
    case Other(_) => false
  }

  predicate EarlyArgs(r: TableRef, a: Args)
    decreases a, 1
  {
    match a
    case NoArgs => false
    case QueryArgs(q) => EarlyQuery(r, q)
    case ListArgs(args, orderBy, _) =>
      First(EarlyExprs(r, args), InExprs(Declare(r.table), args), EarlyExprs(r, orderBy))
  }

  // ----- The walk collects what the query contains -----

  /** What a walk from `g` to `h` did about `r`, when it met a part that contains r (early enough),
      declares r's name, locks. */
  ghost predicate Fits(g: Graph, h: Graph, r: TableRef, early: bool, sees: bool, declares: bool, locks: bool) {
    && (r in h.read <==> r in g.read || (r.table !in g.cteNames && early))
    && (early ==> sees) && (sees && !declares ==> early)
    && (h.locking <==> g.locking || locks)
    && (r.table in h.cteNames <==> r.table in g.cteNames || declares)
  }

  lemma {:induction false} QueryFits(g: Graph, q: Query, r: TableRef)
    ensures Fits(g, WalkQuery(g, q), r,
                 EarlyQuery(r, q), InQuery(See(r), q), InQuery(Declare(r.table), q), InQuery(Lock, q))
    decreases q, 1
  {
    var g1 := if q.locks then g.(locking := true) else g;
    var g2 := WalkCtes(g1, q.ctes);
    var g3 := WalkExprs(g2, q.orderBy);
    CtesFit(g1, q.ctes, r);
    ExprsFit(g2, q.orderBy, r);
    BodyFits(g3, q.body, r);
  }

  lemma {:induction false} CtesFit(g: Graph, ctes: seq<Cte>, r: TableRef)
    ensures Fits(g, WalkCtes(g, ctes), r,
                 EarlyCtes(r, ctes), InCtes(See(r), ctes), InCtes(Declare(r.table), ctes), InCtes(Lock, ctes))
    decreases ctes, 0
  {
    if ctes != [] {
      var init, cte := ctes[..|ctes| - 1], ctes[|ctes| - 1];
      CtesFit(g, init, r);
      var before := WalkCtes(g, init);
      var named := before.(cteNames := before.cteNames + {cte.name});
      QueryFits(named, cte.query, r);
      LastCte(ctes, r);
      assert WalkCtes(g, ctes) == WalkQuery(named, cte.query);
      hide InCtes, EarlyCtes, InQuery, EarlyQuery, WalkQuery, WalkCtes;
    }
  }

  lemma {:induction false} LastCte(ctes: seq<Cte>, r: TableRef)
    requires ctes != []
    ensures var init, cte := ctes[..|ctes| - 1], ctes[|ctes| - 1];
            && (forall t :: InCtes(t, ctes) <==> InCtes(t, init) || t == Declare(cte.name) || InQuery(t, cte.query))
            && (EarlyCtes(r, ctes) <==>
                  First(EarlyCtes(r, init), InCtes(Declare(r.table), init),
                        cte.name != r.table && EarlyQuery(r, cte.query)))
  {
    hide InQuery, EarlyQuery;
    var init := ctes[..|ctes| - 1];
    assert forall i :: 0 <= i < |init| ==> init[i] == ctes[i];
  }

  lemma {:induction false} BodyFits(g: Graph, b: Body, r: TableRef)
    ensures Fits(g, WalkBody(g, b), r,
                 EarlyBody(r, b), InBody(See(r), b), InBody(Declare(r.table), b), InBody(Lock, b))
    decreases b, 1
  {
    match b
    case Select(from, selection, projection, groupBy, having, sortBy, _) =>
      var g1 := WalkFroms(g, from);
      var g2 := WalkExprs(g1, selection);
      var g3 := WalkExprs(g2, projection);
      var g4 := WalkExprs(g3, groupBy);
      var g5 := WalkExprs(g4, having);
      FromsFit(g, from, r);
      ExprsFit(g1, selection, r);
      ExprsFit(g2, projection, r);
      ExprsFit(g3, groupBy, r);
      ExprsFit(g4, having, r);
      ExprsFit(g5, sortBy, r);
    case Parenthesized(q) => QueryFits(g, q, r);
    case SetOperation(left, right) =>
      BodyFits(g, left, r);
      BodyFits(WalkBody(g, left), right, r);
    case OtherBody(_, _) =>
  }

  lemma {:induction false} FromsFit(g: Graph, froms: seq<From>, r: TableRef)
    ensures Fits(g, WalkFroms(g, froms), r,
                 EarlyFroms(r, froms), InFroms(See(r), froms), InFroms(Declare(r.table), froms), InFroms(Lock, froms))
    decreases froms, 0
  {
    if froms != [] {
      var init, last := froms[..|froms| - 1], froms[|froms| - 1];
      FromsFit(g, init, r);
      FromFits(WalkFroms(g, init), last, r);
      assert forall i :: 0 <= i < |init| ==> init[i] == froms[i];
    }
  }

  lemma {:induction false} FromFits(g: Graph, f: From, r: TableRef)
    ensures Fits(g, WalkFrom(g, f), r,
                 EarlyFrom(r, f), InFrom(See(r), f), InFrom(Declare(r.table), f), InFrom(Lock, f))
    decreases f, 1
  {
    FactorFits(g, f.relation, r);
    JoinsFit(WalkFactor(g, f.relation), f.joins, r);
  }

  lemma {:induction false} JoinsFit(g: Graph, joins: seq<Join>, r: TableRef)
    ensures Fits(g, WalkJoins(g, joins), r,
                 EarlyJoins(r, joins), InJoins(See(r), joins), InJoins(Declare(r.table), joins), InJoins(Lock, joins))
    decreases joins, 0
  {
    if joins != [] {
      var init, last := joins[..|joins| - 1], joins[|joins| - 1];
      JoinsFit(g, init, r);
      FactorFits(WalkJoins(g, init), last.relation, r);
      assert forall i :: 0 <= i < |init| ==> init[i] == joins[i];
    }
  }

  lemma {:induction false} FactorFits(g: Graph, f: Factor, r: TableRef)
    ensures Fits(g, WalkFactor(g, f), r,
                 EarlyFactor(r, f), InFactor(See(r), f), InFactor(Declare(r.table), f), InFactor(Lock, f))
    decreases f, 1
  {
    match f
    case Table(ref) =>
      assert WalkFactor(g, f) == AddTable(g, ref);
    case Derived(q) => QueryFits(g, q, r);
    case NestedJoin(inner) =>
      JoinsFit(g, inner.joins, r);
      FactorFits(WalkJoins(g, inner.joins), inner.relation, r);
      assert forall t: Thing :: InFactor(t, f) <==> InFactor(t, inner.relation) || InJoins(t, inner.joins);
    case OtherFactor(_, _) =>
  }

  lemma {:induction false} ExprsFit(g: Graph, es: seq<Expr>, r: TableRef)
    ensures Fits(g, WalkExprs(g, es), r,
                 EarlyExprs(r, es), InExprs(See(r), es), InExprs(Declare(r.table), es), InExprs(Lock, es))
    decreases es, 0
  {
    if es != [] {
      var init, last := es[..|es| - 1], es[|es| - 1];
      ExprsFit(g, init, r);
      ExprFits(WalkExprs(g, init), last, r);
      assert forall i :: 0 <= i < |init| ==> init[i] == es[i];
    }
  }

  lemma {:induction false} ExprFits(g: Graph, e: Expr, r: TableRef)
    ensures Fits(g, WalkExpr(g, e), r,
                 EarlyExpr(r, e), InExpr(See(r), e), InExpr(Declare(r.table), e), InExpr(Lock, e))
    decreases e, 1
  {
    match e
    case Subquery(q) => QueryFits(g, q, r);
    case Exists(q) => QueryFits(g, q, r);
    case InSubquery(inner, q) =>
      ExprFits(g, inner, r);
      QueryFits(WalkExpr(g, inner), q, r);
    case Branch(children) => ExprsFit(g, children, r);
    case Function(parameters, args, filter, _) =>
      var g1 := WalkArgs(g, parameters);
      ArgsFit(g, parameters, r);
      ArgsFit(g1, args, r);
      ExprsFit(WalkArgs(g1, args), filter, r);
    case Other(_) =>
  }

  lemma {:induction false} ArgsFit(g: Graph, a: Args, r: TableRef)
    ensures Fits(g, WalkArgs(g, a), r,
                 EarlyArgs(r, a), InArgs(See(r), a), InArgs(Declare(r.table), a), InArgs(Lock, a))
    decreases a, 1
  {
    match a
    case NoArgs =>
    case QueryArgs(q) => QueryFits(g, q, r);
    case ListArgs(args, orderBy, _) =>
      ExprsFit(g, args, r);
      ExprsFit(WalkExprs(g, args), orderBy, r);
  }

  /**
   A table is collected exactly when it occurs, at any depth where the walk comes by, before any declaration
   of its bare name; so if no CTE takes the name, exactly when it occurs there; and the query locks exactly
   when some query within it does.
  */
  lemma CollectsWhatOccurs(q: Query, r: TableRef)
    ensures r in WalkQuery(EMPTY, q).read <==> EarlyQuery(r, q)
    ensures !InQuery(Declare(r.table), q) ==> (r in WalkQuery(EMPTY, q).read <==> InQuery(See(r), q))
    ensures r in WalkQuery(EMPTY, q).read ==> InQuery(See(r), q)
    ensures WalkQuery(EMPTY, q).locking <==> InQuery(Lock, q)
    ensures forall n :: n in WalkQuery(EMPTY, q).cteNames <==> InQuery(Declare(n), q)
  {
    QueryFits(EMPTY, q, r);
    forall n ensures n in WalkQuery(EMPTY, q).cteNames <==> InQuery(Declare(n), q) {
      QueryFits(EMPTY, q, TableRef(None, n));
    }
  }

  method Collect(q: Query) returns (g: Graph)
    ensures forall r :: r in g.read <==> EarlyQuery(r, q)
    ensures forall r :: r in g.read ==> InQuery(See(r), q)
    ensures forall r :: InQuery(See(r), q) && !InQuery(Declare(r.table), q) ==> r in g.read
    ensures g.locking <==> InQuery(Lock, q)
  {
    var collector := new Collector();
    collector.DoQuery(q);
    g := collector.Value();
    forall r {
      CollectsWhatOccurs(q, r);
    }
    CollectsWhatOccurs(q, TableRef(None, ""));
  }

  // ----- What is not collected -----

  /** The table occurs anywhere in the tree, walked or not. */
  predicate OccursInQuery(r: TableRef, q: Query)
    decreases q, 1
  {
    OccursInCtes(r, q.ctes) || OccursInExprs(r, q.orderBy) || OccursInBody(r, q.body) || OccursInExprs(r, q.rest)
  }

  predicate OccursInCtes(r: TableRef, ctes: seq<Cte>)
    decreases ctes, 0
  {
    exists i :: 0 <= i < |ctes| && OccursInQuery(r, ctes[i].query)
  }

  predicate OccursInBody(r: TableRef, b: Body)
    decreases b, 1
  {
    match b
    case Select(from, selection, projection, groupBy, having, sortBy, rest) =>
      || OccursInFroms(r, from)
      || OccursInExprs(r, selection) || OccursInExprs(r, projection) || OccursInExprs(r, groupBy)
      || OccursInExprs(r, having) || OccursInExprs(r, sortBy) || OccursInExprs(r, rest)
    case Parenthesized(q) => OccursInQuery(r, q)
    case SetOperation(left, right) => OccursInBody(r, left) || OccursInBody(r, right)
    case OtherBody(tables, parts) => r in tables || OccursInExprs(r, parts)
  }

  predicate OccursInFroms(r: TableRef, froms: seq<From>)
    decreases froms, 0
  {
    exists i :: 0 <= i < |froms| && OccursInFrom(r, froms[i])
  }

  predicate OccursInFrom(r: TableRef, f: From)
    decreases f, 1
  {
    OccursInFactor(r, f.relation) || OccursInJoins(r, f.joins)
  }

  predicate OccursInJoins(r: TableRef, joins: seq<Join>)
    decreases joins, 0
  {
    exists i :: 0 <= i < |joins| && (OccursInFactor(r, joins[i].relation) || OccursInExprs(r, joins[i].on))
  }

  predicate OccursInFactor(r: TableRef, f: Factor)
    decreases f, 1
  {
    match f
    case Table(ref) => r == ref
    case Derived(q) => OccursInQuery(r, q)
    case NestedJoin(inner) => OccursInFrom(r, inner)
    case OtherFactor(factors, parts) =>
      (exists i :: 0 <= i < |factors| && OccursInFactor(r, factors[i])) || OccursInExprs(r, parts)
  }

  /** A table in any part of a factor that is not walked occurs in that factor. */
  lemma EveryPartOccurs(r: TableRef, factors: seq<Factor>, parts: seq<Expr>)
    ensures OccursInExprs(r, parts) ==> OccursInFactor(r, OtherFactor(factors, parts))
    ensures forall i :: 0 <= i < |factors| && OccursInFactor(r, factors[i]) ==>
              OccursInFactor(r, OtherFactor(factors, parts))
  {
  }

  predicate OccursInExprs(r: TableRef, es: seq<Expr>)
    decreases es, 0
  {
    exists i :: 0 <= i < |es| && OccursInExpr(r, es[i])
  }

  predicate OccursInExpr(r: TableRef, e: Expr)
    decreases e, 1
  {
    match e
    case Subquery(q) => OccursInQuery(r, q)
    case Exists(q) => OccursInQuery(r, q)
    case InSubquery(inner, q) => OccursInExpr(r, inner) || OccursInQuery(r, q)
    case Branch(children) => OccursInExprs(r, children)
    case Function(parameters, args, filter, over) =>
      OccursInArgs(r, parameters) || OccursInArgs(r, args) || OccursInExprs(r, filter) || OccursInExprs(r, over)
    case Other(parts) => OccursInExprs(r, parts)
  }

  predicate OccursInArgs(r: TableRef, a: Args)
    decreases a, 1
  {
    match a
    case NoArgs => false
    case QueryArgs(q) => OccursInQuery(r, q)
    case ListArgs(args, orderBy, rest) => OccursInExprs(r, args) || OccursInExprs(r, orderBy) || OccursInExprs(r, rest)
  }

  // What is met on the walk occurs.

  lemma {:induction false} MetInQuery(r: TableRef, q: Query)
    ensures InQuery(See(r), q) ==> OccursInQuery(r, q)
    decreases q, 1
  {
    MetInCtes(r, q.ctes);
    MetInExprs(r, q.orderBy);
    MetInBody(r, q.body);
  }

  lemma {:induction false} MetInBody(r: TableRef, b: Body)
    ensures InBody(See(r), b) ==> OccursInBody(r, b)
    decreases b, 1
  {
    match b
    case Select(from, selection, projection, groupBy, having, sortBy, _) =>
      MetInFroms(r, from);
      MetInExprs(r, selection);
      MetInExprs(r, projection);
      MetInExprs(r, groupBy);
      MetInExprs(r, having);
      MetInExprs(r, sortBy);
    case Parenthesized(q) => MetInQuery(r, q);
    case SetOperation(left, right) =>
      MetInBody(r, left);
      MetInBody(r, right);
    case OtherBody(_, _) =>
  }

  lemma {:induction false} MetInFrom(r: TableRef, f: From)
    ensures InFrom(See(r), f) ==> OccursInFrom(r, f)
    decreases f, 1
  {
    MetInFactor(r, f.relation);
    MetInJoins(r, f.joins);
  }

  lemma {:induction false} MetInCtes(r: TableRef, ctes: seq<Cte>)
    ensures InCtes(See(r), ctes) ==> OccursInCtes(r, ctes)
    decreases ctes, 0
  {
    forall i | 0 <= i < |ctes| ensures InQuery(See(r), ctes[i].query) ==> OccursInQuery(r, ctes[i].query) {
      MetInQuery(r, ctes[i].query);
    }
  }

  lemma {:induction false} MetInFroms(r: TableRef, froms: seq<From>)
    ensures InFroms(See(r), froms) ==> OccursInFroms(r, froms)
    decreases froms, 0
  {
    forall i | 0 <= i < |froms| ensures InFrom(See(r), froms[i]) ==> OccursInFrom(r, froms[i]) {
      MetInFrom(r, froms[i]);
    }
  }

  lemma {:induction false} MetInJoins(r: TableRef, joins: seq<Join>)
    ensures InJoins(See(r), joins) ==> OccursInJoins(r, joins)
    decreases joins, 0
  {
    forall i | 0 <= i < |joins| ensures InFactor(See(r), joins[i].relation) ==> OccursInFactor(r, joins[i].relation) {
      MetInFactor(r, joins[i].relation);
    }
  }

  lemma {:induction false} MetInFactor(r: TableRef, f: Factor)
    ensures InFactor(See(r), f) ==> OccursInFactor(r, f)
    decreases f, 1
  {
    match f
    case Table(ref) =>
    case Derived(q) => MetInQuery(r, q);
    case NestedJoin(inner) => MetInFrom(r, inner);
    case OtherFactor(_, _) =>
  }

  lemma {:induction false} MetInExprs(r: TableRef, es: seq<Expr>)
    ensures InExprs(See(r), es) ==> OccursInExprs(r, es)
    decreases es, 0
  {
    forall i | 0 <= i < |es| ensures InExpr(See(r), es[i]) ==> OccursInExpr(r, es[i]) {
      MetInExpr(r, es[i]);
    }
  }

  lemma {:induction false} MetInExpr(r: TableRef, e: Expr)
    ensures InExpr(See(r), e) ==> OccursInExpr(r, e)
    decreases e, 1
  {
    match e
    case Subquery(q) => MetInQuery(r, q);
    case Exists(q) => MetInQuery(r, q);
    case InSubquery(inner, q) =>
      MetInExpr(r, inner);
      MetInQuery(r, q);
    case Branch(children) => MetInExprs(r, children);
    case Function(parameters, args, filter, _) =>
      MetInArgs(r, parameters);
      MetInArgs(r, args);
      MetInExprs(r, filter);
    case Other(_) =>
  }

  lemma {:induction false} MetInArgs(r: TableRef, a: Args)
    ensures InArgs(See(r), a) ==> OccursInArgs(r, a)
    decreases a, 1
  {
    match a
    case NoArgs =>
    case QueryArgs(q) => MetInQuery(r, q);
    case ListArgs(args, orderBy, _) =>
      MetInExprs(r, args);
      MetInExprs(r, orderBy);
  }

  /** What is collected occurs; and every table that occurs is collected if and only if every one occurs early
      where the walk comes by. */
  lemma AllAreCollectedIff(q: Query)
    ensures forall r :: r in WalkQuery(EMPTY, q).read ==> OccursInQuery(r, q)
    ensures (forall r :: OccursInQuery(r, q) ==> r in WalkQuery(EMPTY, q).read)
       <==> (forall r :: OccursInQuery(r, q) ==> EarlyQuery(r, q))
  {
    forall r
      ensures r in WalkQuery(EMPTY, q).read <==> EarlyQuery(r, q)
      ensures r in WalkQuery(EMPTY, q).read ==> OccursInQuery(r, q)
    {
      CollectsWhatOccurs(q, r);
      MetInQuery(r, q);
    }
  }

  // ----- The parts that are passed over -----

  function StripQuery(q: Query): Query
    decreases q, 1
  {
    Query(q.locks, StripCtes(q.ctes), StripExprs(q.orderBy), StripBody(q.body), [])
  }

  function StripCtes(ctes: seq<Cte>): seq<Cte>
    decreases ctes, 0
  {
    if ctes == [] then [] else
      var last := ctes[|ctes| - 1];
      StripCtes(ctes[..|ctes| - 1]) + [Cte(last.name, StripQuery(last.query))]
  }

  function StripBody(b: Body): Body
    decreases b, 1
  {
    match b
    case Select(from, selection, projection, groupBy, having, sortBy, _) =>
      Select(StripFroms(from), StripExprs(selection), StripExprs(projection), StripExprs(groupBy),
             StripExprs(having), StripExprs(sortBy), [])
    case Parenthesized(q) => Parenthesized(StripQuery(q))
    case SetOperation(left, right) => SetOperation(StripBody(left), StripBody(right))
    case OtherBody(_, _) => OtherBody([], [])
  }

  function StripFroms(froms: seq<From>): seq<From>
    decreases froms, 0
  {
    if froms == [] then [] else StripFroms(froms[..|froms| - 1]) + [StripFrom(froms[|froms| - 1])]
  }

  function StripFrom(f: From): From
    decreases f, 1
  {
    From(StripFactor(f.relation), StripJoins(f.joins))
  }

  function StripJoins(joins: seq<Join>): seq<Join>
    decreases joins, 0
  {
    if joins == [] then []
    else StripJoins(joins[..|joins| - 1]) + [Join(StripFactor(joins[|joins| - 1].relation), [])]
  }

  function StripFactor(f: Factor): Factor
    decreases f, 1
  {
    match f
    case Table(ref) => f
    case Derived(q) => Derived(StripQuery(q))
    case NestedJoin(inner) => NestedJoin(From(StripFactor(inner.relation), StripJoins(inner.joins)))
    case OtherFactor(_, _) => OtherFactor([], [])
  }

  function StripExprs(es: seq<Expr>): seq<Expr>
    decreases es, 0
  {
    if es == [] then [] else StripExprs(es[..|es| - 1]) + [StripExpr(es[|es| - 1])]
  }

  function StripExpr(e: Expr): Expr
    decreases e, 1
  {
    match e
    case Subquery(q) => Subquery(StripQuery(q))
    case Exists(q) => Exists(StripQuery(q))
    case InSubquery(inner, q) => InSubquery(StripExpr(inner), StripQuery(q))
    case Branch(children) => Branch(StripExprs(children))
    case Function(parameters, args, filter, _) =>
      Function(StripArgs(parameters), StripArgs(args), StripExprs(filter), [])
    case Other(_) => Other([])
  }

  function StripArgs(a: Args): Args
    decreases a, 1
  {
    match a
    case NoArgs => NoArgs
    case QueryArgs(q) => QueryArgs(StripQuery(q))
    case ListArgs(args, orderBy, _) => ListArgs(StripExprs(args), StripExprs(orderBy), [])
  }

  lemma {:induction false} WalkOfStrippedQuery(g: Graph, q: Query)
    ensures WalkQuery(g, StripQuery(q)) == WalkQuery(g, q)
    decreases q, 1
  {
    var g1 := if q.locks then g.(locking := true) else g;
    WalkOfStrippedCtes(g1, q.ctes);
    var g2 := WalkCtes(g1, q.ctes);
    WalkOfStrippedExprs(g2, q.orderBy);
    WalkOfStrippedBody(WalkExprs(g2, q.orderBy), q.body);
  }

  lemma {:induction false} WalkOfStrippedCtes(g: Graph, ctes: seq<Cte>)
    ensures WalkCtes(g, StripCtes(ctes)) == WalkCtes(g, ctes)
    decreases ctes, 0
  {
    if ctes != [] {
      var init, cte := ctes[..|ctes| - 1], ctes[|ctes| - 1];
      WalkOfStrippedCtes(g, init);
      var before := WalkCtes(g, init);
      WalkOfStrippedQuery(before.(cteNames := before.cteNames + {cte.name}), cte.query);
      var stripped := StripCtes(ctes);
      assert stripped[..|stripped| - 1] == StripCtes(init);
    }
  }

  lemma {:induction false} WalkOfStrippedBody(g: Graph, b: Body)
    ensures WalkBody(g, StripBody(b)) == WalkBody(g, b)
    decreases b, 1
  {
    match b
    case Select(from, selection, projection, groupBy, having, sortBy, _) =>
      var g1 := WalkFroms(g, from);
      var g2 := WalkExprs(g1, selection);
      var g3 := WalkExprs(g2, projection);
      var g4 := WalkExprs(g3, groupBy);
      WalkOfStrippedFroms(g, from);
      WalkOfStrippedExprs(g1, selection);
      WalkOfStrippedExprs(g2, projection);
      WalkOfStrippedExprs(g3, groupBy);
      WalkOfStrippedExprs(g4, having);
      WalkOfStrippedExprs(WalkExprs(g4, having), sortBy);
    case Parenthesized(q) => WalkOfStrippedQuery(g, q);
    case SetOperation(left, right) =>
      WalkOfStrippedBody(g, left);
      WalkOfStrippedBody(WalkBody(g, left), right);
    case OtherBody(_, _) =>
  }

  lemma {:induction false} WalkOfStrippedFroms(g: Graph, froms: seq<From>)
    ensures WalkFroms(g, StripFroms(froms)) == WalkFroms(g, froms)
    decreases froms, 0
  {
    if froms != [] {
      var init := froms[..|froms| - 1];
      WalkOfStrippedFroms(g, init);
      WalkOfStrippedFrom(WalkFroms(g, init), froms[|froms| - 1]);
      var stripped := StripFroms(froms);
      assert stripped[..|stripped| - 1] == StripFroms(init);
    }
  }

  lemma {:induction false} WalkOfStrippedFrom(g: Graph, f: From)
    ensures WalkFrom(g, StripFrom(f)) == WalkFrom(g, f)
    decreases f, 1
  {
    WalkOfStrippedFactor(g, f.relation);
    WalkOfStrippedJoins(WalkFactor(g, f.relation), f.joins);
  }

  lemma {:induction false} WalkOfStrippedJoins(g: Graph, joins: seq<Join>)
    ensures WalkJoins(g, StripJoins(joins)) == WalkJoins(g, joins)
    decreases joins, 0
  {
    if joins != [] {
      var init := joins[..|joins| - 1];
      WalkOfStrippedJoins(g, init);
      WalkOfStrippedFactor(WalkJoins(g, init), joins[|joins| - 1].relation);
      var stripped := StripJoins(joins);
      assert stripped[..|stripped| - 1] == StripJoins(init);
    }
  }

  lemma {:induction false} WalkOfStrippedFactor(g: Graph, f: Factor)
    ensures WalkFactor(g, StripFactor(f)) == WalkFactor(g, f)
    decreases f, 1
  {
    match f
    case Table(ref) =>
    case Derived(q) => WalkOfStrippedQuery(g, q);
    case NestedJoin(inner) =>
      WalkOfStrippedJoins(g, inner.joins);
      WalkOfStrippedFactor(WalkJoins(g, inner.joins), inner.relation);
    case OtherFactor(_, _) =>
  }

  lemma {:induction false} WalkOfStrippedExprs(g: Graph, es: seq<Expr>)
    ensures WalkExprs(g, StripExprs(es)) == WalkExprs(g, es)
    decreases es, 0
  {
    if es != [] {
      var init := es[..|es| - 1];
      WalkOfStrippedExprs(g, init);
      WalkOfStrippedExpr(WalkExprs(g, init), es[|es| - 1]);
      var stripped := StripExprs(es);
      assert stripped[..|stripped| - 1] == StripExprs(init);
    }
  }

  lemma {:induction false} WalkOfStrippedExpr(g: Graph, e: Expr)
    ensures WalkExpr(g, StripExpr(e)) == WalkExpr(g, e)
    decreases e, 1
  {
    match e
    case Subquery(q) => WalkOfStrippedQuery(g, q);
    case Exists(q) => WalkOfStrippedQuery(g, q);
    case InSubquery(inner, q) =>
      WalkOfStrippedExpr(g, inner);
      WalkOfStrippedQuery(WalkExpr(g, inner), q);
    case Branch(children) => WalkOfStrippedExprs(g, children);
    case Function(parameters, args, filter, _) =>
      var g1 := WalkArgs(g, parameters);
      WalkOfStrippedArgs(g, parameters);
      WalkOfStrippedArgs(g1, args);
      WalkOfStrippedExprs(WalkArgs(g1, args), filter);
    case Other(_) =>
  }

  lemma {:induction false} WalkOfStrippedArgs(g: Graph, a: Args)
    ensures WalkArgs(g, StripArgs(a)) == WalkArgs(g, a)
    decreases a, 1
  {
    match a
    case NoArgs =>
    case QueryArgs(q) => WalkOfStrippedQuery(g, q);
    case ListArgs(args, orderBy, _) =>
      WalkOfStrippedExprs(g, args);
      WalkOfStrippedExprs(WalkExprs(g, args), orderBy);
  }

  /** Two queries that differ only in JOIN conditions, windows, VALUES, TABLE and the other parts the walk passes
      over, at any depth, are collected alike. */
  lemma UnwalkedPartsDoNotCount(q: Query, q': Query, g: Graph)
    requires StripQuery(q) == StripQuery(q')
    ensures WalkQuery(g, q) == WalkQuery(g, q')
  {
    WalkOfStrippedQuery(g, q);
    WalkOfStrippedQuery(g, q');
  }

  function SelectFrom(r: TableRef): Body {
    Select([From(Table(r), [])], [], [], [], [], [], [])
  }

  /** SELECT * FROM a UNION TABLE secret: secret is read and not collected. */
  lemma {:induction false} TableBodyIsNotCollected(a: TableRef, secret: TableRef)
    requires a != secret
    ensures var q := Query(false, [], [], SetOperation(SelectFrom(a), OtherBody([secret], [])), []);
            OccursInQuery(secret, q) && secret !in WalkQuery(EMPTY, q).read && a in WalkQuery(EMPTY, q).read
  {
    var other := OtherBody([secret], []);
    var q := Query(false, [], [], SetOperation(SelectFrom(a), other), []);
    assert OccursInBody(secret, other);
    var froms := [From(Table(a), [])];
    assert froms[..0] == [];
    assert WalkFroms(EMPTY, froms) == WalkFrom(WalkFroms(EMPTY, []), froms[0]) == WalkFrom(EMPTY, froms[0])
        == AddTable(EMPTY, a);
    assert WalkBody(EMPTY, SelectFrom(a)) == AddTable(EMPTY, a);
    assert WalkQuery(EMPTY, q) == WalkBody(EMPTY, q.body) == AddTable(EMPTY, a);
  }

  /** The same joins under other conditions. */
  function WithConditions(joins: seq<Join>, conditions: seq<seq<Expr>>): seq<Join>
    requires |conditions| == |joins|
  {
    seq(|joins|, i requires 0 <= i < |joins| => Join(joins[i].relation, conditions[i]))
  }

  /** JOIN conditions are never walked, whatever is joined and however often. */
  lemma {:induction false} JoinConditionsAreNotWalked(g: Graph, joins: seq<Join>, conditions: seq<seq<Expr>>)
    requires |conditions| == |joins|
    ensures WalkJoins(g, WithConditions(joins, conditions)) == WalkJoins(g, joins)
    decreases |joins|
  {
    if joins != [] {
      var n := |joins| - 1;
      JoinConditionsAreNotWalked(g, joins[..n], conditions[..n]);
      assert WithConditions(joins, conditions)[..n] == WithConditions(joins[..n], conditions[..n]);
    }
  }

  /** WITH users AS (...) SELECT ... FROM secret.users: names are compared without their database. */
  lemma CteHidesQualifiedTable(r: TableRef, inner: Query)
    requires !InQuery(See(r), inner)
    ensures var q := Query(false, [Cte(r.table, inner)], [], SelectFrom(r), []);
            OccursInQuery(r, q) && InQuery(See(r), q) && r !in WalkQuery(EMPTY, q).read
  {
    var ctes, froms := [Cte(r.table, inner)], [From(Table(r), [])];
    var q := Query(false, ctes, [], SelectFrom(r), []);
    assert InFactor(See(r), froms[0].relation);
    assert InFrom(See(r), froms[0]);
    assert InFroms(See(r), froms);
    assert InBody(See(r), q.body);
    MetInQuery(r, q);
    CtesFit(EMPTY, ctes, r);
    assert ctes[0] == Cte(r.table, inner);
    assert InCtes(Declare(r.table), ctes) && !InCtes(See(r), ctes);
    var h := WalkCtes(EMPTY, ctes);
    assert froms[..0] == [];
    assert WalkFroms(h, froms) == WalkFrom(WalkFroms(h, []), froms[0]) == WalkFrom(h, From(Table(r), [])) == h;
  }
}
