/**
 Two-layer policy (src/policy/resolver.rs, src/policy/model.rs, src/config/migrate.rs): a baseline per
 connection, overridden by rules for single tables or whole databases. The strictest action over
 everything a statement touches decides.
*/
module Resolver {
  import opened Wrappers
  import opened SqlText
  import opened RenamePlan
  import opened SessionGrants

  datatype Action = Allow | Confirm | Deny {
    function Rank(): nat {
      match this
      case Allow => 0
      case Confirm => 1
      case Deny => 2
    }
  }

  datatype Overflow = Abort | Truncate

  datatype Policy = Policy(read: Action, write: Action, ddl: Action, admin: Action, txCtrl: Action,
                           rowCap: nat, stmtTimeoutMs: nat, requireTouchId: bool,
                           maxBackupRows: nat, maxBackupBytes: nat, onBackupOverflow: Overflow)
  {
    function For(category: Category): Action {
      match category
      case Read => read
      case Write => write
      case Ddl => ddl
      case Admin => admin
      case TxCtrl => txCtrl
    }

    function MergedWith(over: PartialPolicy): Policy {
      Policy(over.read.GetOr(read), over.write.GetOr(write), over.ddl.GetOr(ddl), over.admin.GetOr(admin),
             over.txCtrl.GetOr(txCtrl), over.rowCap.GetOr(rowCap), over.stmtTimeoutMs.GetOr(stmtTimeoutMs),
             over.requireTouchId.GetOr(requireTouchId), over.maxBackupRows.GetOr(maxBackupRows),
             over.maxBackupBytes.GetOr(maxBackupBytes), over.onBackupOverflow.GetOr(onBackupOverflow))
    }
  }

  datatype PartialPolicy =
    PartialPolicy(read: Option<Action>, write: Option<Action>, ddl: Option<Action>, admin: Option<Action>,
                  txCtrl: Option<Action>, rowCap: Option<nat>, stmtTimeoutMs: Option<nat>,
                  requireTouchId: Option<bool>, maxBackupRows: Option<nat>, maxBackupBytes: Option<nat>,
                  onBackupOverflow: Option<Overflow>)
  {
    function For(category: Category): Option<Action> {
      match category
      case Read => read
      case Write => write
      case Ddl => ddl
      case Admin => admin
      case TxCtrl => txCtrl
    }
  }

  datatype RuleKey = Exact(id: TableId) | Wildcard(database: string)

  datatype Connection = Connection(policy: Policy, rules: map<RuleKey, PartialPolicy>, database: Option<string>)

  datatype Statement = Statement(category: Category, readTables: seq<TableRef>, mutatedTables: seq<TableRef>,
                                 lockingRead: bool, fileIo: bool, targets: seq<string>)

  datatype Kind = ReadTable | MutatedTable | LockingRead | WholeDatabase

  datatype Contribution = Contribution(table: TableId, kind: Kind, category: Category, action: Action,
                                       baseline: Action, rule: Option<RuleKey>, elevated: bool)

  datatype DenyReason = FileIo | UnresolvedTarget(table: string) | PolicyReason

  datatype Resolution = Resolution(action: Action, effective: Policy, contributions: seq<Contribution>,
                                   elevated: bool, reason: Option<DenyReason>, databases: seq<string>)

  // ----- One table -----

  // ----- Merging -----

  const SILENT := PartialPolicy(None, None, None, None, None, None, None, None, None, None, None)

  /** The rule that says all of `p`. */
  function Whole(p: Policy): PartialPolicy {
    PartialPolicy(Some(p.read), Some(p.write), Some(p.ddl), Some(p.admin), Some(p.txCtrl), Some(p.rowCap),
                  Some(p.stmtTimeoutMs), Some(p.requireTouchId), Some(p.maxBackupRows), Some(p.maxBackupBytes),
                  Some(p.onBackupOverflow))
  }

  function Later<T>(a: Option<T>, b: Option<T>): Option<T> {
    if b.Some? then b else a
  }

  /** The rule that says what `b` says, and what `a` says where `b` is silent. */
  function Joined(a: PartialPolicy, b: PartialPolicy): PartialPolicy {
    PartialPolicy(Later(a.read, b.read), Later(a.write, b.write), Later(a.ddl, b.ddl), Later(a.admin, b.admin),
                  Later(a.txCtrl, b.txCtrl), Later(a.rowCap, b.rowCap), Later(a.stmtTimeoutMs, b.stmtTimeoutMs),
                  Later(a.requireTouchId, b.requireTouchId), Later(a.maxBackupRows, b.maxBackupRows),
                  Later(a.maxBackupBytes, b.maxBackupBytes), Later(a.onBackupOverflow, b.onBackupOverflow))
  }

  /** A silent rule changes nothing, a full one decides all, and two rules act like one that joins them. Together
      these fix every field of a merged policy. */
  lemma MergingLaws(p: Policy, q: Policy, a: PartialPolicy, b: PartialPolicy)
    ensures p.MergedWith(SILENT) == p
    ensures p.MergedWith(Whole(q)) == q
    ensures p.MergedWith(a).MergedWith(b) == p.MergedWith(Joined(a, b))
  {
  }

  function GoverningRule(rules: map<RuleKey, PartialPolicy>, id: TableId): Option<RuleKey> {
    if Exact(id) in rules then Some(Exact(id))
    else if Wildcard(id.schema) in rules then Some(Wildcard(id.schema))
    else None
  }

  function RuleAction(conn: Connection, category: Category, id: TableId): Option<Action> {
    var key := GoverningRule(conn.rules, id);
    if key.Some? then conn.rules[key.value].For(category) else None
  }

  /** A rule may loosen the baseline to Confirm at most. */
  function TableAction(baseline: Action, rule: Option<Action>): (Action, bool) {
    match rule
    case None => (baseline, false)
    case Some(a) => if a.Allow? && !baseline.Allow? then (Confirm, true) else (a, false)
  }

  function ActionOn(conn: Connection, category: Category, id: TableId): Action {
    TableAction(conn.policy.For(category), RuleAction(conn, category, id)).0
  }

  function EffectiveOn(conn: Connection, id: TableId): Policy {
    var key := GoverningRule(conn.rules, id);
    if key.Some? then conn.policy.MergedWith(conn.rules[key.value]) else conn.policy
  }

  function Contribute(conn: Connection, kind: Kind, category: Category, id: TableId): Contribution {
    var base := conn.policy.For(category);
    var (action, elevated) := TableAction(base, RuleAction(conn, category, id));
    Contribution(id, kind, category, action, base, GoverningRule(conn.rules, id), elevated)
  }

  /** The documented order: what the exact rule says, else what the wildcard rule says, else the baseline. */
  function DocumentedAction(conn: Connection, category: Category, id: TableId): Action {
    var exact := if Exact(id) in conn.rules then conn.rules[Exact(id)].For(category) else None;
    var wildcard := if Wildcard(id.schema) in conn.rules then conn.rules[Wildcard(id.schema)].For(category) else None;
    TableAction(conn.policy.For(category), if exact.Some? then exact else wildcard).0
  }

  /** An exact rule shadows the wildcard rule even for categories it says nothing about: the code departs
      from the documented order exactly when such a shadowed action would have mattered. */
  lemma ExactShadowsWildcardIff(conn: Connection, category: Category, id: TableId)
    ensures ActionOn(conn, category, id) != DocumentedAction(conn, category, id)
       <==> && Exact(id) in conn.rules && conn.rules[Exact(id)].For(category).None?
            && Wildcard(id.schema) in conn.rules
            && var shadowed := conn.rules[Wildcard(id.schema)].For(category);
               shadowed.Some? && shadowed.value != conn.policy.For(category)
               && !(shadowed.value == Action.Allow && conn.policy.For(category) == Confirm)
  {
    var w := Wildcard(id.schema);
    if w in conn.rules && conn.rules[w].For(category) == Some(Action.Allow) {
      assert TableAction(conn.policy.For(category), conn.rules[w].For(category)).0.Rank() <= 1;
    }
  }

  /** The merged policy that comes with a table says what its action is, unless the rule was an elevation. */
  lemma MergedPolicySaysTheAction(conn: Connection, kind: Kind, category: Category, id: TableId)
    ensures var c := Contribute(conn, kind, category, id);
            && (c.elevated <==> EffectiveOn(conn, id).For(category) != c.action)
            && (c.elevated ==> EffectiveOn(conn, id).For(category) == Action.Allow && c.action == Confirm
                               && c.baseline != Action.Allow)
  {
    var key := GoverningRule(conn.rules, id);
    if key.Some? {
      assert EffectiveOn(conn, id).For(category)
          == conn.rules[key.value].For(category).GetOr(conn.policy.For(category));
    }
  }

  // ----- What the statement asks for -----

  datatype Demand = Demand(kind: Kind, category: Category, ref: TableRef)

  function DemandsOfReads(tables: seq<TableRef>, locking: bool): seq<Demand> {
    if tables == [] then [] else
      var t := tables[|tables| - 1];
      DemandsOfReads(tables[..|tables| - 1], locking) + [Demand(ReadTable, Read, t)]
      + if locking then [Demand(LockingRead, Write, t)] else []
  }

  function DemandsOfMutated(mutated: seq<TableRef>, category: Category): seq<Demand> {
    seq(|mutated|, i requires 0 <= i < |mutated| => Demand(MutatedTable, category, mutated[i]))
  }

  function Demands(s: Statement): seq<Demand> {
    DemandsOfReads(s.readTables, s.lockingRead) + DemandsOfMutated(s.mutatedTables, s.category)
  }

  function Refusal(a: Demand, fallback: Option<string>): Option<DenyReason> {
    if a.kind == MutatedTable && a.category == Read then Some(PolicyReason)
    else if Resolve(a.ref, fallback).None? then Some(UnresolvedTarget(a.ref.table))
    else None
  }

  function Contributions(conn: Connection, demands: seq<Demand>, fallback: Option<string>): seq<Contribution> {
    if demands == [] then [] else
      var a := demands[|demands| - 1];
      Contributions(conn, demands[..|demands| - 1], fallback)
      + if Refusal(a, fallback).Some? then []
        else [Contribute(conn, a.kind, a.category, Resolve(a.ref, fallback).value)]
  }

  ghost predicate FirstRefusal(demands: seq<Demand>, fallback: Option<string>, reason: Option<DenyReason>) {
    if reason.None? then forall i :: 0 <= i < |demands| ==> Refusal(demands[i], fallback).None?
    else exists i :: 0 <= i < |demands| && Refusal(demands[i], fallback) == reason
                     && forall j :: 0 <= j < i ==> Refusal(demands[j], fallback).None?
  }

  /** The first of the strictest contributions decides. */
  ghost predicate Strictest(conn: Connection, cs: seq<Contribution>, action: Action, effective: Policy) {
    exists i :: 0 <= i < |cs| && action == cs[i].action && effective == EffectiveOn(conn, cs[i].table)
                && (forall j :: 0 <= j < i ==> cs[j].action.Rank() < action.Rank())
                && (forall j :: i <= j < |cs| ==> cs[j].action.Rank() <= action.Rank())
  }

  ghost predicate AnyElevated(cs: seq<Contribution>) {
    exists c :: c in cs && c.elevated
  }

  ghost predicate DatabasesOf(cs: seq<Contribution>, dbs: seq<string>) {
    && (forall c :: c in cs ==> c.table.schema in dbs)
    && (forall d :: d in dbs ==> exists c :: c in cs && c.table.schema == d)
    && (forall i, j :: 0 <= i < j < |dbs| ==> dbs[i] != dbs[j])
  }

  function OrElse(a: Option<string>, b: Option<string>): Option<string> {
    if a.Some? then a else b
  }

  /** `r` is the resolution of `s` on `conn`. */
  ghost predicate Resolves(conn: Connection, s: Statement, fallback: Option<string>, r: Resolution) {
    var fb := OrElse(fallback, conn.database);
    var demands := Demands(s);
    if s.fileIo then r == Resolution(Deny, conn.policy, [], false, Some(FileIo), [])
    else
      && r.contributions == Contributions(conn, demands, fb)
      && r.elevated == AnyElevated(r.contributions)
      && FirstRefusal(demands, fb, r.reason)
      && (r.contributions != [] || r.reason.Some? ==> DatabasesOf(r.contributions, r.databases))
      && (if r.reason.Some? then r.action == Deny && r.effective == conn.policy
          else if r.contributions != [] then Strictest(conn, r.contributions, r.action, r.effective)
          else && r.action == conn.policy.For(s.category) && r.effective == conn.policy
               && r.databases == if s.targets != [] then s.targets else if fb.Some? then [fb.value] else [])
  }

  /** The running state of a resolution. */
  class Tally {
    const conn: Connection
    const fallback: Option<string>
    var contributions: seq<Contribution>
    var strictest: Option<(Action, Policy)>
    var elevated: bool
    var databases: seq<string>
    var denied: Option<DenyReason>

    ghost predicate Holds(demands: seq<Demand>)
      reads this
    {
      && contributions == Contributions(conn, demands, fallback)
      && (strictest.None? <==> contributions == [])
      && (strictest.Some? ==> Strictest(conn, contributions, strictest.value.0, strictest.value.1))
      && elevated == AnyElevated(contributions)
      && DatabasesOf(contributions, databases)
      && FirstRefusal(demands, fallback, denied)
    }

    constructor (conn: Connection, fallback: Option<string>)
      ensures this.conn == conn && this.fallback == fallback
      ensures Holds([])
    {
      this.conn, this.fallback := conn, fallback;
      contributions, strictest, elevated, databases, denied := [], None, false, [], None;
    }

    method Deny(a: Demand, reason: DenyReason, ghost demands: seq<Demand>)
      requires Holds(demands) && Refusal(a, fallback) == Some(reason)
      modifies this
      ensures Holds(demands + [a])
    {
      hide FirstRefusal, Strictest, DatabasesOf, AnyElevated, Contributions;
      if denied.None? {
        denied := Some(reason);
      }
      ContributionsGrow(conn, demands, a, fallback);
      RefusalGrows(demands, a, fallback, old(denied), denied);
    }

    method Consider(a: Demand, ghost demands: seq<Demand>)
      requires Holds(demands) && (a.kind == MutatedTable ==> a.category != Read)
      modifies this
      ensures Holds(demands + [a])
    {
      hide FirstRefusal, Strictest, DatabasesOf, AnyElevated, Contributions, Contribute, EffectiveOn;
      var id := Resolve(a.ref, fallback);
      if id.None? {
        Deny(a, UnresolvedTarget(a.ref.table), demands);
        return;
      }
      var c := Contribute(conn, a.kind, a.category, id.value);
      if strictest.None? || c.action.Rank() > strictest.value.0.Rank() {
        strictest := Some((c.action, EffectiveOn(conn, id.value)));
      }
      contributions := contributions + [c];
      if c.elevated {
        elevated := true;
      }
      if id.value.schema !in databases {
        databases := databases + [id.value.schema];
      }
      ContributionsGrow(conn, demands, a, fallback);
      ContributeKeepsTable(conn, a, id.value);
      RefusalGrows(demands, a, fallback, denied, denied);
      ElevatedGrows(old(contributions), c);
      StrictestGrows(conn, old(contributions), c, old(strictest), strictest);
      DatabasesGrow(old(contributions), c, old(databases), databases);
    }
  }

  lemma ContributionsGrow(conn: Connection, demands: seq<Demand>, a: Demand, fb: Option<string>)
    ensures Refusal(a, fb).Some? ==> Contributions(conn, demands + [a], fb) == Contributions(conn, demands, fb)
    ensures Refusal(a, fb).None? ==>
              Contributions(conn, demands + [a], fb)
              == Contributions(conn, demands, fb) + [Contribute(conn, a.kind, a.category, Resolve(a.ref, fb).value)]
  {
    assert (demands + [a])[..|demands|] == demands;
  }

  lemma ContributeKeepsTable(conn: Connection, a: Demand, id: TableId)
    ensures Contribute(conn, a.kind, a.category, id).table == id
  {
  }

  lemma ElevatedGrows(cs: seq<Contribution>, c: Contribution)
    ensures AnyElevated(cs + [c]) <==> AnyElevated(cs) || c.elevated
  {
    if AnyElevated(cs) {
      var e :| e in cs && e.elevated;
      assert e in cs + [c];
    }
    if c.elevated {
      assert c in cs + [c];
    }
  }

  lemma RefusalGrows(demands: seq<Demand>, a: Demand, fb: Option<string>, was: Option<DenyReason>,
                     now: Option<DenyReason>)
    requires FirstRefusal(demands, fb, was)
    requires now == if was.Some? then was else Refusal(a, fb)
    ensures FirstRefusal(demands + [a], fb, now)
  {
    var all := demands + [a];
    assert all[|demands|] == a && forall i :: 0 <= i < |demands| ==> all[i] == demands[i];
    if was.Some? {
      var i :| 0 <= i < |demands| && Refusal(demands[i], fb) == was
               && forall j :: 0 <= j < i ==> Refusal(demands[j], fb).None?;
      assert Refusal(all[i], fb) == now;
    }
  }

  lemma StrictestGrows(conn: Connection, cs: seq<Contribution>, c: Contribution, was: Option<(Action, Policy)>,
                       now: Option<(Action, Policy)>)
    requires was.None? <==> cs == []
    requires was.Some? ==> Strictest(conn, cs, was.value.0, was.value.1)
    requires now == if was.None? || c.action.Rank() > was.value.0.Rank()
                    then Some((c.action, EffectiveOn(conn, c.table))) else was
    ensures now.Some? && Strictest(conn, cs + [c], now.value.0, now.value.1)
  {
    hide EffectiveOn;
    var all := cs + [c];
    if now == was && was.Some? {
      var i :| 0 <= i < |cs| && was.value.0 == cs[i].action && was.value.1 == EffectiveOn(conn, cs[i].table)
               && (forall j :: 0 <= j < i ==> cs[j].action.Rank() < was.value.0.Rank())
               && (forall j :: i <= j < |cs| ==> cs[j].action.Rank() <= was.value.0.Rank());
      assert all[i] == cs[i];
      if c.action.Rank() <= was.value.0.Rank() {
        assert Strictest(conn, all, now.value.0, now.value.1);
      }
    } else {
      assert all[|cs|] == c;
    }
  }

  lemma DatabasesGrow(cs: seq<Contribution>, c: Contribution, was: seq<string>, now: seq<string>)
    requires DatabasesOf(cs, was)
    requires now == if c.table.schema in was then was else was + [c.table.schema]
    ensures DatabasesOf(cs + [c], now)
  {
    forall d | d in now ensures exists x :: x in cs + [c] && x.table.schema == d {
      if d in was {
        var x :| x in cs && x.table.schema == d;
        assert x in cs + [c];
      } else {
        assert c in cs + [c];
      }
    }
  }

  lemma OneMoreRead(tables: seq<TableRef>, locking: bool, i: nat)
    requires i < |tables|
    ensures DemandsOfReads([], locking) == []
    ensures locking ==>
              DemandsOfReads(tables[..i + 1], locking)
              == DemandsOfReads(tables[..i], locking) + [Demand(ReadTable, Read, tables[i])]
                 + [Demand(LockingRead, Write, tables[i])]
    ensures !locking ==>
              DemandsOfReads(tables[..i + 1], locking)
              == DemandsOfReads(tables[..i], locking) + [Demand(ReadTable, Read, tables[i])]
  {
    assert tables[..i + 1][..i] == tables[..i];
  }

  method ConsiderReads(tally: Tally, s: Statement)
    requires tally.Holds([])
    modifies tally
    ensures tally.Holds(DemandsOfReads(s.readTables, s.lockingRead))
  {
    hide Tally.Holds, Refusal;
    for i := 0 to |s.readTables|
      invariant tally.Holds(DemandsOfReads(s.readTables[..i], s.lockingRead))
    {
      ghost var demands := DemandsOfReads(s.readTables[..i], s.lockingRead);
      OneMoreRead(s.readTables, s.lockingRead, i);
      tally.Consider(Demand(ReadTable, Read, s.readTables[i]), demands);
      if s.lockingRead {
        tally.Consider(Demand(LockingRead, Write, s.readTables[i]),
                       demands + [Demand(ReadTable, Read, s.readTables[i])]);
      }
    }
    assert s.readTables[..|s.readTables|] == s.readTables;
  }

  method ConsiderMutated(tally: Tally, s: Statement, ghost demands: seq<Demand>)
    requires tally.Holds(demands)
    modifies tally
    ensures tally.Holds(demands + DemandsOfMutated(s.mutatedTables, s.category))
  {
    hide Tally.Holds, Contributions;
    ghost var all := DemandsOfMutated(s.mutatedTables, s.category);
    assert demands + all[..0] == demands;
    for i := 0 to |s.mutatedTables|
      invariant tally.Holds(demands + all[..i])
    {
      var a := Demand(MutatedTable, s.category, s.mutatedTables[i]);
      assert (demands + all[..i]) + [a] == demands + all[..i + 1];
      if s.category == Read {
        tally.Deny(a, PolicyReason, demands + all[..i]);
      } else {
        tally.Consider(a, demands + all[..i]);
      }
    }
    assert all[..|s.mutatedTables|] == all;
  }

  method ResolveStatement(conn: Connection, s: Statement, fallback: Option<string>) returns (r: Resolution)
    ensures Resolves(conn, s, fallback, r)
  {
    hide Demands, Contributions, FirstRefusal, Strictest, DatabasesOf;
    var fb := OrElse(fallback, conn.database);
    if s.fileIo {
      return Resolution(Deny, conn.policy, [], false, Some(FileIo), []);
    }
    var tally := new Tally(conn, fb);
    ConsiderReads(tally, s);
    ConsiderMutated(tally, s, DemandsOfReads(s.readTables, s.lockingRead));
    AllDemands(s);
    if tally.denied.Some? {
      r := Resolution(Deny, conn.policy, tally.contributions, tally.elevated, tally.denied, tally.databases);
    } else if tally.strictest.Some? {
      r := Resolution(tally.strictest.value.0, tally.strictest.value.1, tally.contributions, tally.elevated, None,
        tally.databases);
    } else {
      var dbs := if s.targets != [] then s.targets else if fb.Some? then [fb.value] else [];
      r := Resolution(conn.policy.For(s.category), conn.policy, [], false, None, dbs);
    }
  }

  lemma AllDemands(s: Statement)
    ensures Demands(s) == DemandsOfReads(s.readTables, s.lockingRead) + DemandsOfMutated(s.mutatedTables, s.category)
  {
  }

  // ----- By database only (the older form) -----

  function Dedup(xs: seq<string>): seq<string> {
    if |xs| < 2 then xs else if xs[0] == xs[1] then Dedup(xs[1..]) else [xs[0]] + Dedup(xs[1..])
  }

  lemma {:induction false} DedupKeepsElements(xs: seq<string>, x: string)
    ensures x in Dedup(xs) <==> x in xs
    decreases |xs|
  {
    if |xs| >= 2 {
      assert xs == [xs[0]] + xs[1..];
      DedupKeepsElements(xs[1..], x);
    }
  }

  lemma {:induction false} DedupOfSorted(xs: seq<string>)
    requires Sorted(xs)
    ensures forall i, j :: 0 <= i < j < |Dedup(xs)| ==>
              AtMost(Dedup(xs)[i], Dedup(xs)[j]) && Dedup(xs)[i] != Dedup(xs)[j]
    decreases |xs|
  {
    hide AtMost;
    if |xs| >= 2 {
      DedupOfSorted(xs[1..]);
      var more := Dedup(xs[1..]);
      if xs[0] != xs[1] {
        forall k | 0 <= k < |more| ensures AtMost(xs[0], more[k]) && xs[0] != more[k] {
          DedupKeepsElements(xs[1..], more[k]);
          var m :| 0 <= m < |xs[1..]| && xs[1..][m] == more[k];
          AtMostTotal(xs[0], xs[1]);
          AtMostTotal(more[k], more[k]);
          assert xs[m + 1] == more[k];
        }
      }
    }
  }

  /** The databases considered are the targets, or else the default one, in order and each once. */
  lemma DatabasesAreSorted(conn: Connection, targets: seq<string>, fallback: Option<string>)
    ensures var dbs := Databases(conn, targets, fallback);
            && (forall i, j :: 0 <= i < j < |dbs| ==> AtMost(dbs[i], dbs[j]) && dbs[i] != dbs[j])
            && (targets != [] ==> forall d :: d in dbs <==> d in targets)
            && (targets == [] ==> dbs == if fallback.Some? then [fallback.value]
                                         else if conn.database.Some? then [conn.database.value] else [])
  {
    hide AtMost;
    var fb := OrElse(fallback, conn.database);
    var all := if targets != [] then targets else if fb.Some? then [fb.value] else [];
    SortSorts(all);
    DedupOfSorted(Sort(all));
    forall d | targets != [] ensures d in Databases(conn, targets, fallback) <==> d in targets {
      DatabasesAreTheTargets(conn, targets, fallback, d);
    }
    if targets == [] && fb.Some? {
      SortOne(fb.value);
    }
  }

  function Databases(conn: Connection, targets: seq<string>, fallback: Option<string>): seq<string> {
    var fb := OrElse(fallback, conn.database);
    Dedup(Sort(if targets != [] then targets else if fb.Some? then [fb.value] else []))
  }

  function ByDatabase(conn: Connection, category: Category, dbs: seq<string>): seq<Contribution> {
    if dbs == [] then []
    else ByDatabase(conn, category, dbs[..|dbs| - 1])
         + [Contribute(conn, WholeDatabase, category, TableId(dbs[|dbs| - 1], "*"))]
  }

  ghost predicate ResolvesDatabases(conn: Connection, category: Category, targets: seq<string>,
                                    fallback: Option<string>, r: Resolution)
  {
    && r.databases == Databases(conn, targets, fallback)
    && r.reason == None
    && r.contributions == ByDatabase(conn, category, r.databases)
    && r.elevated == AnyElevated(r.contributions)
    && if r.databases == [] then r.action == conn.policy.For(category) && r.effective == conn.policy
       else Strictest(conn, r.contributions, r.action, r.effective)
  }

  method ResolveDatabases(conn: Connection, category: Category, targets: seq<string>, fallback: Option<string>)
    returns (r: Resolution)
    ensures ResolvesDatabases(conn, category, targets, fallback, r)
  {
    hide Strictest, Databases, EffectiveOn;
    var dbs := Databases(conn, targets, fallback);
    var contributions: seq<Contribution> := [];
    var strictest: Option<(Action, Policy)> := None;
    for i := 0 to |dbs|
      invariant contributions == ByDatabase(conn, category, dbs[..i])
      invariant strictest.None? <==> i == 0
      invariant i > 0 <==> contributions != []
      invariant strictest.Some? ==> Strictest(conn, contributions, strictest.value.0, strictest.value.1)
    {
      assert dbs[..i + 1][..i] == dbs[..i];
      var id := TableId(dbs[i], "*");
      var c := Contribute(conn, WholeDatabase, category, id);
      ghost var was := strictest;
      if strictest.None? || c.action.Rank() > strictest.value.0.Rank() {
        strictest := Some((c.action, EffectiveOn(conn, id)));
      }
      StrictestGrows(conn, contributions, c, was, strictest);
      contributions := contributions + [c];
    }
    assert dbs[..|dbs|] == dbs;
    var (action, effective) := strictest.GetOr((conn.policy.For(category), conn.policy));
    var elevated := false;
    for i := 0 to |contributions|
      invariant elevated == AnyElevated(contributions[..i])
    {
      ElevatedGrows(contributions[..i], contributions[i]);
      assert contributions[..i + 1] == contributions[..i] + [contributions[i]];
      elevated := elevated || contributions[i].elevated;
    }
    assert contributions[..|contributions|] == contributions;
    r := Resolution(action, effective, contributions, elevated, None, dbs);
  }

  // ----- The strictest action decides -----

  predicate TableWithin(conn: Connection, category: Category, ref: TableRef, fb: Option<string>, a: Action) {
    var id := Resolve(ref, fb);
    id.Some? && ActionOn(conn, category, id.value).Rank() <= a.Rank()
  }

  /** Nothing about the statement is stricter than `a`. */
  ghost predicate Within(conn: Connection, s: Statement, fallback: Option<string>, a: Action) {
    var fb := OrElse(fallback, conn.database);
    a == Deny || (
      && !s.fileIo
      && (s.mutatedTables != [] ==> s.category != Read)
      && (forall t :: t in s.readTables ==> TableWithin(conn, Read, t, fb, a))
      && (forall t :: t in s.readTables && s.lockingRead ==> TableWithin(conn, Write, t, fb, a))
      && (forall t :: t in s.mutatedTables ==> TableWithin(conn, s.category, t, fb, a))
      && (s.readTables == [] && s.mutatedTables == [] ==> conn.policy.For(s.category).Rank() <= a.Rank()))
  }

  lemma {:induction false} DemandsOfReadsAre(tables: seq<TableRef>, locking: bool, d: Demand)
    ensures d in DemandsOfReads(tables, locking)
       <==> d.ref in tables && (d == Demand(ReadTable, Read, d.ref)
                                    || (locking && d == Demand(LockingRead, Write, d.ref)))
    decreases |tables|
  {
    if tables != [] {
      var init := tables[..|tables| - 1];
      assert tables == init + [tables[|tables| - 1]];
      DemandsOfReadsAre(init, locking, d);
    }
  }

  lemma DemandsAre(s: Statement, d: Demand)
    ensures d in Demands(s)
       <==> || (d.ref in s.readTables && d == Demand(ReadTable, Read, d.ref))
            || (d.ref in s.readTables && s.lockingRead && d == Demand(LockingRead, Write, d.ref))
            || (d.ref in s.mutatedTables && d == Demand(MutatedTable, s.category, d.ref))
  {
    DemandsOfReadsAre(s.readTables, s.lockingRead, d);
    var all := DemandsOfMutated(s.mutatedTables, s.category);
    if d.ref in s.mutatedTables && d == Demand(MutatedTable, s.category, d.ref) {
      var i :| 0 <= i < |s.mutatedTables| && s.mutatedTables[i] == d.ref;
      assert all[i] == d;
    }
  }

  ghost predicate Granted(d: Demand, demands: seq<Demand>, fb: Option<string>) {
    d in demands && Refusal(d, fb).None?
  }

  function ContributionOf(conn: Connection, d: Demand, fb: Option<string>): Contribution
    requires Refusal(d, fb).None?
  {
    Contribute(conn, d.kind, d.category, Resolve(d.ref, fb).value)
  }

  lemma {:induction false} ContributionsAre(conn: Connection, demands: seq<Demand>, fb: Option<string>, c: Contribution)
    ensures c in Contributions(conn, demands, fb)
       <==> exists d :: Granted(d, demands, fb) && c == ContributionOf(conn, d, fb)
    decreases |demands|
  {
    hide Contribute, Refusal;
    if demands != [] {
      var init, last := demands[..|demands| - 1], demands[|demands| - 1];
      assert demands == init + [last];
      ContributionsAre(conn, init, fb, c);
      ContributionsGrow(conn, init, last, fb);
      if d :| Granted(d, init, fb) && c == ContributionOf(conn, d, fb) {
        assert Granted(d, demands, fb);
      }
      if Refusal(last, fb).None? && c == ContributionOf(conn, last, fb) {
        assert Granted(last, demands, fb);
      }
      if d :| Granted(d, demands, fb) && c == ContributionOf(conn, d, fb) && d != last {
        assert Granted(d, init, fb);
      }
    }
  }

  lemma StrictestBounds(conn: Connection, cs: seq<Contribution>, action: Action, effective: Policy, a: Action)
    requires Strictest(conn, cs, action, effective)
    ensures action.Rank() <= a.Rank() <==> forall c :: c in cs ==> c.action.Rank() <= a.Rank()
  {
    hide EffectiveOn;
  }

  /** No demand is refused and none is answered by more than `a`. */
  ghost predicate AllWithin(conn: Connection, demands: seq<Demand>, fb: Option<string>, a: Action) {
    forall d :: d in demands ==>
      Refusal(d, fb).None? && ContributionOf(conn, d, fb).action.Rank() <= a.Rank()
  }

  lemma BoundedByDemands(conn: Connection, s: Statement, fallback: Option<string>, r: Resolution, a: Action)
    requires Resolves(conn, s, fallback, r) && !s.fileIo && a != Deny && Demands(s) != []
    ensures r.action.Rank() <= a.Rank() <==> AllWithin(conn, Demands(s), OrElse(fallback, conn.database), a)
  {
    hide Contribute, Refusal, Strictest, Demands, DatabasesOf;
    var fb, demands := OrElse(fallback, conn.database), Demands(s);
    if r.reason.Some? {
      var i :| 0 <= i < |demands| && Refusal(demands[i], fb) == r.reason;
      assert demands[i] in demands;
    } else {
      forall d | d in demands ensures Refusal(d, fb).None? {
      }
      assert Granted(demands[0], demands, fb);
      ContributionsAre(conn, demands, fb, ContributionOf(conn, demands[0], fb));
      assert r.contributions != [];
      StrictestBounds(conn, r.contributions, r.action, r.effective, a);
      if AllWithin(conn, demands, fb, a) {
        forall c | c in r.contributions ensures c.action.Rank() <= a.Rank() {
          ContributionsAre(conn, demands, fb, c);
        }
      }
      forall d | d in demands && r.action.Rank() <= a.Rank()
        ensures ContributionOf(conn, d, fb).action.Rank() <= a.Rank()
      {
        assert Granted(d, demands, fb);
        ContributionsAre(conn, demands, fb, ContributionOf(conn, d, fb));
      }
    }
  }

  /** The action is at most `a` exactly when nothing about the statement is stricter than `a`. */
  lemma StrictestWins(conn: Connection, s: Statement, fallback: Option<string>, r: Resolution, a: Action)
    requires Resolves(conn, s, fallback, r)
    ensures r.action.Rank() <= a.Rank() <==> Within(conn, s, fallback, a)
  {
    var fb, demands := OrElse(fallback, conn.database), Demands(s);
    hide Contributions, Strictest, DatabasesOf, AnyElevated;
    if a != Deny && !s.fileIo {
      forall d ensures d in demands
         <==> || (d.ref in s.readTables && d == Demand(ReadTable, Read, d.ref))
              || (d.ref in s.readTables && s.lockingRead && d == Demand(LockingRead, Write, d.ref))
              || (d.ref in s.mutatedTables && d == Demand(MutatedTable, s.category, d.ref))
      {
        DemandsAre(s, d);
      }
      if demands == [] {
        NoDemands(conn, s, fallback, r);
      } else {
        BoundedByDemands(conn, s, fallback, r, a);
        WithinIsAllWithin(conn, s, fallback, a);
      }
    }
  }

  lemma TablesAreDemanded(s: Statement)
    ensures s.readTables != [] || s.mutatedTables != [] ==> Demands(s) != []
  {
    hide Demands;
    if s.readTables != [] {
      DemandsAre(s, Demand(ReadTable, Read, s.readTables[0]));
    }
    if s.mutatedTables != [] {
      DemandsAre(s, Demand(MutatedTable, s.category, s.mutatedTables[0]));
    }
  }

  lemma NoDemands(conn: Connection, s: Statement, fallback: Option<string>, r: Resolution)
    requires Resolves(conn, s, fallback, r) && !s.fileIo && Demands(s) == []
    ensures s.readTables == [] && s.mutatedTables == [] && r.action == conn.policy.For(s.category)
  {
    TablesAreDemanded(s);
  }

  lemma WithinIsAllWithin(conn: Connection, s: Statement, fallback: Option<string>, a: Action)
    requires !s.fileIo && a != Deny && Demands(s) != []
    ensures Within(conn, s, fallback, a) <==> AllWithin(conn, Demands(s), OrElse(fallback, conn.database), a)
  {
    hide Demands;
    var fb, demands := OrElse(fallback, conn.database), Demands(s);
    if AllWithin(conn, demands, fb, a) {
      forall t | t in s.readTables ensures TableWithin(conn, Read, t, fb, a) {
        DemandsAre(s, Demand(ReadTable, Read, t));
        assert Demand(ReadTable, Read, t) in demands;
      }
      forall t | t in s.readTables && s.lockingRead ensures TableWithin(conn, Write, t, fb, a) {
        DemandsAre(s, Demand(LockingRead, Write, t));
        assert Demand(LockingRead, Write, t) in demands;
      }
      forall t | t in s.mutatedTables ensures s.category != Read && TableWithin(conn, s.category, t, fb, a) {
        DemandsAre(s, Demand(MutatedTable, s.category, t));
        assert Demand(MutatedTable, s.category, t) in demands;
      }
      DemandsAre(s, demands[0]);
      assert demands[0] in demands;
      assert s.mutatedTables != [] ==> s.mutatedTables[0] in s.mutatedTables;
    }
    if Within(conn, s, fallback, a) {
      forall d | d in demands
        ensures Refusal(d, fb).None? && ContributionOf(conn, d, fb).action.Rank() <= a.Rank()
      {
        DemandsAre(s, d);
        assert TableWithin(conn, d.category, d.ref, fb, a);
      }
    }
  }

  lemma ActionIsItsBounds(a: Action, b: Action)
    requires forall x: Action :: a.Rank() <= x.Rank() <==> b.Rank() <= x.Rank()
    ensures a == b
  {
    assert a.Rank() <= b.Rank() && b.Rank() <= a.Rank();
  }

  /** The same tables, in any order and with any duplicates. */
  ghost predicate SameTables(s: Statement, s': Statement) {
    && s.category == s'.category && s.fileIo == s'.fileIo && s.lockingRead == s'.lockingRead
    && (forall t :: t in s.readTables <==> t in s'.readTables)
    && (forall t :: t in s.mutatedTables <==> t in s'.mutatedTables)
  }

  /** Order and duplicates in the table lists never change the action. */
  lemma OrderDoesNotMatter(conn: Connection, s: Statement, s': Statement, fallback: Option<string>, r: Resolution,
                           r': Resolution)
    requires SameTables(s, s') && Resolves(conn, s, fallback, r) && Resolves(conn, s', fallback, r')
    ensures r.action == r'.action
  {
    hide Resolves, TableWithin;
    assert s.readTables == [] <==> s'.readTables == [] by {
      if s.readTables != [] { assert s.readTables[0] in s'.readTables; }
      if s'.readTables != [] { assert s'.readTables[0] in s.readTables; }
    }
    assert s.mutatedTables == [] <==> s'.mutatedTables == [] by {
      if s.mutatedTables != [] { assert s.mutatedTables[0] in s'.mutatedTables; }
      if s'.mutatedTables != [] { assert s'.mutatedTables[0] in s.mutatedTables; }
    }
    forall x: Action ensures r.action.Rank() <= x.Rank() <==> r'.action.Rank() <= x.Rank() {
      StrictestWins(conn, s, fallback, r, x);
      StrictestWins(conn, s', fallback, r', x);
    }
    ActionIsItsBounds(r.action, r'.action);
  }

  // ----- Rules never open what the baseline closes -----

  function Bare(conn: Connection): Connection {
    conn.(rules := map[])
  }

  predicate Tightened(conn: Connection, category: Category, ref: TableRef, fb: Option<string>) {
    var id := Resolve(ref, fb);
    id.Some? && var rule := RuleAction(conn, category, id.value); rule.Some? && rule.value != Action.Allow
  }

  /** A statement passes unasked exactly when it would under the baseline alone and no rule tightens that. */
  lemma AllowNeedsTheBaseline(conn: Connection, s: Statement, fallback: Option<string>, r: Resolution, bare: Resolution)
    requires Resolves(conn, s, fallback, r) && Resolves(Bare(conn), s, fallback, bare)
    ensures r.action == Action.Allow
       <==> && bare.action == Action.Allow
            && var fb := OrElse(fallback, conn.database);
               && (forall t :: t in s.readTables ==> !Tightened(conn, Read, t, fb))
               && (forall t :: t in s.readTables && s.lockingRead ==> !Tightened(conn, Write, t, fb))
               && (forall t :: t in s.mutatedTables ==> !Tightened(conn, s.category, t, fb))
  {
    hide Resolves;
    var fb := OrElse(fallback, conn.database);
    StrictestWins(conn, s, fallback, r, Action.Allow);
    StrictestWins(Bare(conn), s, fallback, bare, Action.Allow);
    forall category, t
      ensures TableWithin(conn, category, t, fb, Action.Allow)
         <==> TableWithin(Bare(conn), category, t, fb, Action.Allow) && !Tightened(conn, category, t, fb)
    {
      AllowOnNeedsTheBaseline(conn, category, t, fb);
    }
    hide TableWithin, Tightened;
  }

  lemma AllowOnNeedsTheBaseline(conn: Connection, category: Category, t: TableRef, fb: Option<string>)
    ensures TableWithin(conn, category, t, fb, Action.Allow)
       <==> TableWithin(Bare(conn), category, t, fb, Action.Allow) && !Tightened(conn, category, t, fb)
  {
  }

  /** A rule that loosens the baseline is reported, and a statement it helped through always asks. */
  lemma ElevationAsks(conn: Connection, s: Statement, fallback: Option<string>, r: Resolution)
    requires Resolves(conn, s, fallback, r) && r.elevated
    ensures r.action != Action.Allow
    ensures exists c :: c in r.contributions && c.action == Confirm && c.baseline != Action.Allow
                        && RuleAction(conn, c.category, c.table) == Some(Action.Allow)
  {
    hide Demands, Refusal, GoverningRule, RuleAction, DatabasesOf;
    var fb := OrElse(fallback, conn.database);
    var c :| c in r.contributions && c.elevated;
    ContributionsAre(conn, Demands(s), fb, c);
    assert c.action == Confirm;
    if r.reason.None? {
      StrictestBounds(conn, r.contributions, r.action, r.effective, Action.Allow);
    }
  }

  // ----- Which limits apply -----

  predicate Answers(conn: Connection, category: Category, t: TableRef, fb: Option<string>, a: Action) {
    var id := Resolve(t, fb);
    id.Some? && ActionOn(conn, category, id.value) == a
  }

  predicate ReadDecides(conn: Connection, s: Statement, fb: Option<string>, a: Action, t: TableRef) {
    t in s.readTables && (Answers(conn, Read, t, fb, a) || (s.lockingRead && Answers(conn, Write, t, fb, a)))
  }

  predicate MutationDecides(conn: Connection, s: Statement, fb: Option<string>, a: Action, t: TableRef) {
    t in s.mutatedTables && Answers(conn, s.category, t, fb, a)
  }

  /** A table that can be the first with the action `a`: every table read comes before every table changed. */
  ghost predicate Decides(conn: Connection, s: Statement, fb: Option<string>, a: Action, t: TableRef) {
    || ReadDecides(conn, s, fb, a, t)
    || ((forall u :: !ReadDecides(conn, s, fb, a, u)) && MutationDecides(conn, s, fb, a, t))
  }

  function LimitsOf(conn: Connection, t: TableRef, fb: Option<string>): Policy {
    var id := Resolve(t, fb);
    if id.Some? then EffectiveOn(conn, id.value) else conn.policy
  }

  lemma {:induction false} ContributionAt(conn: Connection, demands: seq<Demand>, fb: Option<string>)
    requires forall i :: 0 <= i < |demands| ==> Refusal(demands[i], fb).None?
    ensures |Contributions(conn, demands, fb)| == |demands|
    ensures forall i :: 0 <= i < |demands| ==>
              Contributions(conn, demands, fb)[i] == ContributionOf(conn, demands[i], fb)
    decreases |demands|
  {
    hide Contribute, Refusal;
    if demands != [] {
      var init := demands[..|demands| - 1];
      ContributionAt(conn, init, fb);
      ContributionsGrow(conn, init, demands[|demands| - 1], fb);
      assert demands == init + [demands[|demands| - 1]];
    }
  }

  /** Where the demands of reading end, and which demand each is. */
  lemma DemandAt(s: Statement, i: nat)
    requires i < |Demands(s)|
    ensures var ofReads := DemandsOfReads(s.readTables, s.lockingRead); var d := Demands(s)[i];
            if i < |ofReads| then
              d == ofReads[i] && d.ref in s.readTables
              && (d.category == Read || (s.lockingRead && d.category == Write)) && d.kind != MutatedTable
            else (&& i - |ofReads| < |s.mutatedTables|
                  && d == Demand(MutatedTable, s.category, s.mutatedTables[i - |ofReads|]))
  {
    var ofReads := DemandsOfReads(s.readTables, s.lockingRead);
    if i < |ofReads| {
      DemandsOfReadsAre(s.readTables, s.lockingRead, ofReads[i]);
    }
  }

  lemma DemandAnswers(conn: Connection, d: Demand, fb: Option<string>)
    requires Refusal(d, fb).None?
    ensures Answers(conn, d.category, d.ref, fb, ContributionOf(conn, d, fb).action)
    ensures EffectiveOn(conn, ContributionOf(conn, d, fb).table) == LimitsOf(conn, d.ref, fb)
  {
  }

  /** A read table that decides does so in the part of the demands that comes first. */
  lemma ReadDeciderComesFirst(conn: Connection, s: Statement, fb: Option<string>, a: Action, t: TableRef)
    returns (j: nat)
    requires ReadDecides(conn, s, fb, a, t)
    requires forall i :: 0 <= i < |Demands(s)| ==> Refusal(Demands(s)[i], fb).None?
    ensures j < |DemandsOfReads(s.readTables, s.lockingRead)| <= |Demands(s)|
    ensures ContributionOf(conn, Demands(s)[j], fb).action == a
  {
    var ofReads := DemandsOfReads(s.readTables, s.lockingRead);
    var d := if Answers(conn, Read, t, fb, a) then Demand(ReadTable, Read, t) else Demand(LockingRead, Write, t);
    DemandsOfReadsAre(s.readTables, s.lockingRead, d);
    j :| 0 <= j < |ofReads| && ofReads[j] == d;
    assert Demands(s)[j] == d;
    DemandAnswers(conn, d, fb);
  }

  /** The limits are those of a deciding table. */
  lemma LimitsComeFromADecider(conn: Connection, s: Statement, fallback: Option<string>, r: Resolution)
    returns (t: TableRef, i: nat)
    requires Resolves(conn, s, fallback, r) && r.reason.None? && Demands(s) != []
    ensures var fb := OrElse(fallback, conn.database);
            && Decides(conn, s, fb, r.action, t) && r.effective == LimitsOf(conn, t, fb)
            && i < |Demands(s)| && Demands(s)[i].ref == t
            && (forall k :: 0 <= k < |Demands(s)| ==> Refusal(Demands(s)[k], fb).None?)
            && ContributionOf(conn, Demands(s)[i], fb).action == r.action
            && (forall k :: 0 <= k < i ==> ContributionOf(conn, Demands(s)[k], fb).action != r.action)
  {
    hide Demands, Contributions, Contribute, DatabasesOf, EffectiveOn, RuleAction;
    var fb, demands := OrElse(fallback, conn.database), Demands(s);
    ContributionAt(conn, demands, fb);
    var cs := r.contributions;
    i :| 0 <= i < |cs| && r.action == cs[i].action && r.effective == EffectiveOn(conn, cs[i].table)
         && (forall j :: 0 <= j < i ==> cs[j].action.Rank() < r.action.Rank())
         && (forall j :: i <= j < |cs| ==> cs[j].action.Rank() <= r.action.Rank());
    t := demands[i].ref;
    DemandAt(s, i);
    DemandAnswers(conn, demands[i], fb);
    if i >= |DemandsOfReads(s.readTables, s.lockingRead)| {
      forall u ensures !ReadDecides(conn, s, fb, r.action, u) {
        if ReadDecides(conn, s, fb, r.action, u) {
          var j := ReadDeciderComesFirst(conn, s, fb, r.action, u);
        }
      }
    }
  }

  lemma {:induction false} ReadsStartWith(t: TableRef, rest: seq<TableRef>, locking: bool)
    ensures var ofReads := DemandsOfReads([t] + rest, locking);
            && ofReads != [] && ofReads[0] == Demand(ReadTable, Read, t)
            && (locking ==> |ofReads| > 1 && ofReads[1] == Demand(LockingRead, Write, t))
    decreases |rest|
  {
    if rest == [] {
      assert ([t] + rest)[..0] == [];
    } else {
      assert ([t] + rest)[..|rest|] == [t] + rest[..|rest| - 1];
      ReadsStartWith(t, rest[..|rest| - 1], locking);
    }
  }

  function ReadFirst(s: Statement, t: TableRef): Statement {
    s.(readTables := [t] + s.readTables)
  }

  function MutatedFirst(s: Statement, t: TableRef): Statement {
    s.(mutatedTables := [t] + s.mutatedTables)
  }

  lemma DecidesIsSame(conn: Connection, s: Statement, s': Statement, fb: Option<string>, a: Action, t: TableRef)
    requires SameTables(s, s')
    ensures Decides(conn, s, fb, a, t) <==> Decides(conn, s', fb, a, t)
  {
    hide Answers;
    assert forall u :: ReadDecides(conn, s, fb, a, u) <==> ReadDecides(conn, s', fb, a, u);
  }

  /** A read table at the front decides. */
  lemma FirstReadDecides(conn: Connection, s: Statement, t: TableRef, fallback: Option<string>, r: Resolution)
    requires Resolves(conn, ReadFirst(s, t), fallback, r) && r.reason.None?
    requires ReadDecides(conn, s, OrElse(fallback, conn.database), r.action, t)
    ensures r.effective == LimitsOf(conn, t, OrElse(fallback, conn.database))
  {
    hide Resolves, Refusal, Contribute;
    var fb, s' := OrElse(fallback, conn.database), ReadFirst(s, t);
    TablesAreDemanded(s');
    var u, i := LimitsComeFromADecider(conn, s', fallback, r);
    ReadsStartWith(t, s.readTables, s.lockingRead);
    var demands := Demands(s');
    assert demands[0] == Demand(ReadTable, Read, t);
    assert s.lockingRead ==> |demands| > 1 && demands[1] == Demand(LockingRead, Write, t);
    DemandAnswers(conn, demands[0], fb);
    if s.lockingRead {
      DemandAnswers(conn, demands[1], fb);
    }
  }

  /** A changed table at the front decides if no table read does. */
  lemma FirstMutationDecides(conn: Connection, s: Statement, t: TableRef, fallback: Option<string>, r: Resolution)
    requires Resolves(conn, MutatedFirst(s, t), fallback, r) && r.reason.None?
    requires var fb := OrElse(fallback, conn.database);
             MutationDecides(conn, s, fb, r.action, t) && forall u :: !ReadDecides(conn, s, fb, r.action, u)
    ensures r.effective == LimitsOf(conn, t, OrElse(fallback, conn.database))
  {
    hide Resolves, Refusal, Contribute, Answers;
    var fb, s' := OrElse(fallback, conn.database), MutatedFirst(s, t);
    TablesAreDemanded(s');
    var u, i := LimitsComeFromADecider(conn, s', fallback, r);
    var n := |DemandsOfReads(s.readTables, s.lockingRead)|;
    var demands := Demands(s');
    assert demands[n] == Demand(MutatedTable, s.category, t);
    DemandAnswers(conn, demands[n], fb);
    SameAnswer(conn, s.category, t, fb, r.action, ContributionOf(conn, demands[n], fb).action);
    DemandAt(s', i);
    DemandAnswers(conn, demands[i], fb);
    assert !ReadDecides(conn, s, fb, r.action, u);
  }

  lemma SameAnswer(conn: Connection, category: Category, t: TableRef, fb: Option<string>, a: Action, b: Action)
    requires Answers(conn, category, t, fb, a) && Answers(conn, category, t, fb, b)
    ensures a == b
  {
  }

  // Every statement has a resolution.

  lemma {:induction false} Summed(conn: Connection, demands: seq<Demand>, fb: Option<string>)
    returns (strictest: Option<(Action, Policy)>, dbs: seq<string>, reason: Option<DenyReason>)
    ensures var cs := Contributions(conn, demands, fb);
            && (strictest.None? <==> cs == [])
            && (strictest.Some? ==> Strictest(conn, cs, strictest.value.0, strictest.value.1))
            && DatabasesOf(cs, dbs) && FirstRefusal(demands, fb, reason)
    decreases |demands|
  {
    if demands == [] {
      strictest, dbs, reason := None, [], None;
    } else {
      hide Contribute, Refusal, Strictest, DatabasesOf, FirstRefusal, EffectiveOn, Contributions;
      var init, a := demands[..|demands| - 1], demands[|demands| - 1];
      assert demands == init + [a];
      strictest, dbs, reason := Summed(conn, init, fb);
      ContributionsGrow(conn, init, a, fb);
      var now := if reason.Some? then reason else Refusal(a, fb);
      RefusalGrows(init, a, fb, reason, now);
      reason := now;
      if Refusal(a, fb).None? {
        var cs, c := Contributions(conn, init, fb), ContributionOf(conn, a, fb);
        var more := if c.table.schema in dbs then dbs else dbs + [c.table.schema];
        DatabasesGrow(cs, c, dbs, more);
        var best := if strictest.None? || c.action.Rank() > strictest.value.0.Rank()
                    then Some((c.action, EffectiveOn(conn, c.table))) else strictest;
        StrictestGrows(conn, cs, c, strictest, best);
        strictest, dbs := best, more;
      }
    }
  }

  lemma ResolutionExists(conn: Connection, s: Statement, fallback: Option<string>) returns (r: Resolution)
    ensures Resolves(conn, s, fallback, r)
  {
    var fb := OrElse(fallback, conn.database);
    if s.fileIo {
      r := Resolution(Deny, conn.policy, [], false, Some(FileIo), []);
    } else {
      var strictest, dbs, reason := Summed(conn, Demands(s), fb);
      hide Demands, Contributions, Strictest, DatabasesOf, FirstRefusal;
      var cs := Contributions(conn, Demands(s), fb);
      var elevated := AnyElevated(cs);
      if reason.Some? {
        r := Resolution(Deny, conn.policy, cs, elevated, reason, dbs);
      } else if strictest.Some? {
        r := Resolution(strictest.value.0, strictest.value.1, cs, elevated, None, dbs);
      } else {
        var targets := if s.targets != [] then s.targets else if fb.Some? then [fb.value] else [];
        r := Resolution(conn.policy.For(s.category), conn.policy, cs, elevated, None, targets);
      }
    }
  }

  lemma RefusalIsSame(conn: Connection, s: Statement, s': Statement, fallback: Option<string>, r: Resolution,
                      r': Resolution)
    requires SameTables(s, s') && Resolves(conn, s, fallback, r) && Resolves(conn, s', fallback, r') && r.reason.None?
    ensures r'.reason.None? && (Demands(s) == [] <==> Demands(s') == [])
  {
    hide Refusal, Contributions, Strictest, DatabasesOf;
    var fb := OrElse(fallback, conn.database);
    forall d ensures d in Demands(s) <==> d in Demands(s') {
      DemandsAre(s, d);
      DemandsAre(s', d);
    }
    hide Demands;
    forall i | 0 <= i < |Demands(s')| ensures Refusal(Demands(s')[i], fb).None? {
      assert Demands(s')[i] in Demands(s);
    }
    if Demands(s) != [] { assert Demands(s)[0] in Demands(s'); }
    if Demands(s') != [] { assert Demands(s')[0] in Demands(s); }
  }

  /** However the tables are ordered and repeated, the same limits apply. */
  ghost predicate LimitsAreFixed(conn: Connection, s: Statement, fallback: Option<string>, r: Resolution) {
    forall s', r' :: SameTables(s, s') && Resolves(conn, s', fallback, r') ==> r'.effective == r.effective
  }

  /** All tables that can come first with the strictest action have the same limits. */
  ghost predicate DecidersAgree(conn: Connection, s: Statement, fb: Option<string>, a: Action) {
    forall t, u :: Decides(conn, s, fb, a, t) && Decides(conn, s, fb, a, u) ==>
      LimitsOf(conn, t, fb) == LimitsOf(conn, u, fb)
  }

  /**
   Unlike the action, the limits of a statement can depend on the order of its tables. They do not if and
   only if all its deciding tables have the same: the strictest among those it reads or, if none of these is
   among the strictest, among those it changes.
  */
  lemma LimitsFollowOrderIff(conn: Connection, s: Statement, fallback: Option<string>, r: Resolution)
    requires Resolves(conn, s, fallback, r) && r.reason.None?
    ensures LimitsAreFixed(conn, s, fallback, r) <==> DecidersAgree(conn, s, OrElse(fallback, conn.database), r.action)
  {
    hide Resolves, ReadDecides, MutationDecides, LimitsOf, Decides;
    var fb := OrElse(fallback, conn.database);
    if DecidersAgree(conn, s, fb, r.action) {
      forall s', r' | SameTables(s, s') && Resolves(conn, s', fallback, r') ensures r'.effective == r.effective {
        SameLimits(conn, s, s', fallback, r, r');
      }
    }
    if LimitsAreFixed(conn, s, fallback, r) {
      forall t | Decides(conn, s, fb, r.action, t) ensures LimitsOf(conn, t, fb) == r.effective {
        SomeOrderDecides(conn, s, t, fallback, r);
      }
    }
  }

  /** A rule that only sets the row cap. */
  function RowCap(n: nat): PartialPolicy {
    PartialPolicy(None, None, None, None, None, Some(n), None, None, None, None, None)
  }

  function InD(table: string): TableRef {
    TableRef(Some("d"), table)
  }

  /** DROP TABLE d.a, d.b and DROP TABLE d.b, d.a run under different row caps, when rules give a and b different
      ones. The lists of DROP, TRUNCATE and RENAME are the ones that keep the order of the text. */
  lemma DropOrderDecidesRowCap(policy: Policy, r: Resolution, r': Resolution)
    requires var conn := Connection(policy, map[Exact(TableId("d", "a")) := RowCap(1),
                                                Exact(TableId("d", "b")) := RowCap(2)], None);
             && Resolves(conn, Statement(Ddl, [], [InD("a"), InD("b")], false, false, []), None, r)
             && Resolves(conn, Statement(Ddl, [], [InD("b"), InD("a")], false, false, []), None, r')
    ensures r.action == r'.action == policy.ddl && r.effective.rowCap == 1 && r'.effective.rowCap == 2
  {
    var a, b := TableId("d", "a"), TableId("d", "b");
    var conn := Connection(policy, map[Exact(a) := RowCap(1), Exact(b) := RowCap(2)], None);
    assert a.table[0] == 'a' && b.table[0] == 'b';
    assert ActionOn(conn, Ddl, a) == ActionOn(conn, Ddl, b) == policy.ddl;
    assert EffectiveOn(conn, a).rowCap == 1 && EffectiveOn(conn, b).rowCap == 2;
    hide ActionOn, EffectiveOn;
    FirstOfTwo(conn, InD("a"), InD("b"), r);
    FirstOfTwo(conn, InD("b"), InD("a"), r');
  }

  /** Of two changed tables with the same action the first gives its limits. */
  lemma FirstOfTwo(conn: Connection, a: TableRef, b: TableRef, r: Resolution)
    requires a.database.Some? && b.database.Some?
    requires Resolves(conn, Statement(Ddl, [], [a, b], false, false, []), None, r)
    requires ActionOn(conn, Ddl, Resolve(a, None).value) == ActionOn(conn, Ddl, Resolve(b, None).value)
    ensures r.action == ActionOn(conn, Ddl, Resolve(a, None).value)
    ensures r.effective == EffectiveOn(conn, Resolve(a, None).value)
  {
    hide Contribute, EffectiveOn, Contributions, Strictest, DatabasesOf;
    var s, fb := Statement(Ddl, [], [a, b], false, false, []), OrElse(None, conn.database);
    assert Demands(s) == [Demand(MutatedTable, Ddl, a), Demand(MutatedTable, Ddl, b)];
    assert forall i :: 0 <= i < |Demands(s)| ==> Refusal(Demands(s)[i], fb).None?;
    assert r.reason.None?;
    hide Resolves;
    var t, i := LimitsComeFromADecider(conn, s, None, r);
    DemandAnswers(conn, Demands(s)[0], fb);
    DemandAnswers(conn, Demands(s)[1], fb);
  }

  /** One strictest table read settles the limits, whatever the limits of the tables changed. */
  lemma OneReadSettlesLimits(conn: Connection, s: Statement, t: TableRef, fallback: Option<string>, r: Resolution)
    requires Resolves(conn, s, fallback, r) && r.reason.None?
    requires var fb := OrElse(fallback, conn.database);
             ReadDecides(conn, s, fb, r.action, t) && forall u :: ReadDecides(conn, s, fb, r.action, u) ==> u == t
    ensures LimitsAreFixed(conn, s, fallback, r)
  {
    hide Resolves, ReadDecides, LimitsOf;
    LimitsFollowOrderIff(conn, s, fallback, r);
  }

  lemma SameLimits(conn: Connection, s: Statement, s': Statement, fallback: Option<string>, r: Resolution,
                   r': Resolution)
    requires Resolves(conn, s, fallback, r) && Resolves(conn, s', fallback, r') && SameTables(s, s') && r.reason.None?
    requires DecidersAgree(conn, s, OrElse(fallback, conn.database), r.action)
    ensures r'.effective == r.effective
  {
    RefusalIsSame(conn, s, s', fallback, r, r');
    OrderDoesNotMatter(conn, s, s', fallback, r, r');
    if Demands(s) == [] {
      NothingToDecide(conn, s, fallback, r);
      NothingToDecide(conn, s', fallback, r');
    } else {
      hide Resolves, Demands, Decides, LimitsOf;
      var t, i := LimitsComeFromADecider(conn, s, fallback, r);
      var u, j := LimitsComeFromADecider(conn, s', fallback, r');
      DecidesIsSame(conn, s, s', OrElse(fallback, conn.database), r.action, u);
    }
  }

  lemma NothingToDecide(conn: Connection, s: Statement, fallback: Option<string>, r: Resolution)
    requires Resolves(conn, s, fallback, r) && r.reason.None? && Demands(s) == []
    ensures r.effective == conn.policy
  {
  }

  /** A deciding table put first gives its limits to the statement. */
  lemma SomeOrderDecides(conn: Connection, s: Statement, t: TableRef, fallback: Option<string>, r: Resolution)
    requires Resolves(conn, s, fallback, r) && r.reason.None? && LimitsAreFixed(conn, s, fallback, r)
    requires Decides(conn, s, OrElse(fallback, conn.database), r.action, t)
    ensures r.effective == LimitsOf(conn, t, OrElse(fallback, conn.database))
  {
    hide Resolves, LimitsOf, Answers, Demands;
    var fb := OrElse(fallback, conn.database);
    var inReads := ReadDecides(conn, s, fb, r.action, t);
    var s' := if inReads then ReadFirst(s, t) else MutatedFirst(s, t);
    assert SameTables(s, s');
    var r' := ResolutionExists(conn, s', fallback);
    RefusalIsSame(conn, s, s', fallback, r, r');
    OrderDoesNotMatter(conn, s, s', fallback, r, r');
    if inReads {
      FirstReadDecides(conn, s, t, fallback, r');
    } else {
      FirstMutationDecides(conn, s, t, fallback, r');
    }
  }

  // ----- Migration from per-database policies -----

  /** Every policy of a database becomes the rule for all its tables. */
  method MigrateRules(databasePolicies: map<string, PartialPolicy>) returns (rules: map<RuleKey, PartialPolicy>)
    ensures OnlyWildcards(rules)
    ensures forall d :: d in databasePolicies <==> Wildcard(d) in rules
    ensures forall d :: d in databasePolicies ==> rules[Wildcard(d)] == databasePolicies[d]
  {
    rules := map[];
    var todo := databasePolicies.Keys;
    while todo != {}
      invariant OnlyWildcards(rules) && todo <= databasePolicies.Keys
      invariant forall d :: Wildcard(d) in rules <==> d in databasePolicies && d !in todo
      invariant forall d :: Wildcard(d) in rules ==> rules[Wildcard(d)] == databasePolicies[d]
      decreases todo
    {
      var d :| d in todo;
      rules := rules[Wildcard(d) := databasePolicies[d]];
      todo := todo - {d};
    }
  }

  ghost predicate OnlyWildcards(rules: map<RuleKey, PartialPolicy>) {
    forall key :: key in rules ==> key.Wildcard?
  }

  /** The statement asks for one category, on at least one table. */
  predicate OneCategory(s: Statement) {
    && !s.fileIo
    && (if s.category == Read then s.readTables != [] && s.mutatedTables == [] && !s.lockingRead
        else s.readTables == [] && s.mutatedTables != [])
  }

  function TablesOf(s: Statement): seq<TableRef> {
    if s.category == Read then s.readTables else s.mutatedTables
  }

  /** Every table names its database, and `targets` are those databases. */
  ghost predicate FullyQualified(s: Statement) {
    && (forall t :: t in TablesOf(s) ==> t.database.Some? && t.database.value in s.targets)
    && (forall d :: d in s.targets ==> exists t :: t in TablesOf(s) && t.database == Some(d))
  }

  lemma {:induction false} ByDatabaseIs(conn: Connection, category: Category, dbs: seq<string>, c: Contribution)
    ensures c in ByDatabase(conn, category, dbs)
       <==> c.table.schema in dbs && c == Contribute(conn, WholeDatabase, category, TableId(c.table.schema, "*"))
    decreases |dbs|
  {
    hide RuleAction, GoverningRule, TableAction;
    if dbs != [] {
      assert dbs == dbs[..|dbs| - 1] + [dbs[|dbs| - 1]];
      ByDatabaseIs(conn, category, dbs[..|dbs| - 1], c);
    }
  }

  lemma DatabasesAreTheTargets(conn: Connection, targets: seq<string>, fallback: Option<string>, d: string)
    requires targets != []
    ensures d in Databases(conn, targets, fallback) <==> d in targets
  {
    hide Sort, Dedup;
    SortSorts(targets);
    assert d in multiset(Sort(targets)) <==> d in multiset(targets);
    DedupKeepsElements(Sort(targets), d);
  }

  lemma DatabaseBounds(conn: Connection, s: Statement, fallback: Option<string>, r: Resolution, a: Action)
    requires ResolvesDatabases(conn, s.category, s.targets, fallback, r) && s.targets != []
    ensures r.action.Rank() <= a.Rank()
       <==> forall d :: d in s.targets ==> ActionOn(conn, s.category, TableId(d, "*")).Rank() <= a.Rank()
  {
    hide Strictest, Databases, RuleAction, GoverningRule;
    forall d ensures d in r.databases <==> d in s.targets {
      DatabasesAreTheTargets(conn, s.targets, fallback, d);
    }
    assert s.targets[0] in r.databases;
    StrictestBounds(conn, r.contributions, r.action, r.effective, a);
    forall d | d in s.targets && r.action.Rank() <= a.Rank()
      ensures ActionOn(conn, s.category, TableId(d, "*")).Rank() <= a.Rank()
    {
      var c := Contribute(conn, WholeDatabase, s.category, TableId(d, "*"));
      ByDatabaseIs(conn, s.category, r.databases, c);
    }
    if forall d :: d in s.targets ==> ActionOn(conn, s.category, TableId(d, "*")).Rank() <= a.Rank() {
      forall c | c in r.contributions ensures c.action.Rank() <= a.Rank() {
        ByDatabaseIs(conn, s.category, r.databases, c);
      }
    }
  }

  /** Migrated rules decide a statement per table as the old policies did per database. */
  lemma MigrationKeepsTheAction(conn: Connection, s: Statement, fallback: Option<string>, r: Resolution,
                                legacy: Resolution)
    requires OnlyWildcards(conn.rules) && OneCategory(s) && FullyQualified(s)
    requires Resolves(conn, s, fallback, r)
    requires ResolvesDatabases(conn, s.category, s.targets, fallback, legacy)
    ensures r.action == legacy.action
  {
    hide Resolves, ResolvesDatabases;
    var fb := OrElse(fallback, conn.database);
    assert TablesOf(s)[0] in TablesOf(s);
    forall x: Action ensures r.action.Rank() <= x.Rank() <==> legacy.action.Rank() <= x.Rank() {
      StrictestWins(conn, s, fallback, r, x);
      DatabaseBounds(conn, s, fallback, legacy, x);
      WithinByDatabase(conn, s, fallback, x);
    }
    ActionIsItsBounds(r.action, legacy.action);
  }

  lemma WithinByDatabase(conn: Connection, s: Statement, fallback: Option<string>, a: Action)
    requires OnlyWildcards(conn.rules) && OneCategory(s) && FullyQualified(s)
    ensures Within(conn, s, fallback, a)
       <==> forall d :: d in s.targets ==> ActionOn(conn, s.category, TableId(d, "*")).Rank() <= a.Rank()
  {
    var fb := OrElse(fallback, conn.database);
    forall t | t in TablesOf(s)
      ensures TableWithin(conn, s.category, t, fb, a)
         <==> ActionOn(conn, s.category, TableId(t.database.value, "*")).Rank() <= a.Rank()
    {
      var id := Resolve(t, fb).value;
      assert GoverningRule(conn.rules, id) == GoverningRule(conn.rules, TableId(id.schema, "*"));
    }
    hide ActionOn, TableWithin;
  }
}
