/**
 The approved DROP: plan, approval, re-check and send (src/mcp/tools.rs `call_sql_modern`, the DROP part
 of `preflight_ddl` in src/sql/ddl.rs and the preflight handling in src/sql/mysql.rs), while other
 sessions create and drop tables between any two catalog queries.
*/
module DropPlan {
  import opened Wrappers
  import opened SqlText
  import opened RenamePlan

  /** What is dropped. The classifier tells tables, views and indexes apart and calls the rest "other":
      schemas, MariaDB's sequences, and what is not in the catalog at all, such as roles. */
  datatype ObjectType = Table | View | Index | Sequence | Schema | Elsewhere {
    function Label(): string {
      match this
      case Table => "table"
      case View => "view"
      case Index => "index"
      case _ => "other"
    }
  }

  /** `hidden`: further names, in comments that MySQL and MariaDB execute. They are stripped before the statement
      is classified, and sent with it. */
  datatype DropStatement =
    DropStatement(targets: seq<TableRef>, hidden: seq<TableRef>, ifExists: bool, objectType: ObjectType)
  {
    /** The names listed are those of the catalog entries to drop. */
    predicate NamesItsTargets() {
      objectType.Table? || objectType.View? || objectType.Sequence?
    }
  }

  datatype Preflight =
    | AllPresent
    | MissingNoOp(missing: seq<TableId>)
    | Mixed(existing: seq<TableId>, missing: seq<TableId>)
    | Unresolved(table: string)
    | Missing(id: TableId)
    | QueryFailed

  // ----- The preflight of one statement -----

  /** What the loop concludes once every target has been looked up. */
  function Conclude(existing: seq<TableId>, missing: seq<TableId>, ifExists: bool): Preflight {
    if missing == [] then AllPresent
    else if !ifExists then Missing(missing[0])
    else if existing == [] then MissingNoOp(missing)
    else Mixed(existing, missing)
  }

  /** The resolved targets whose lookup answered `there`, in order. */
  function Those(targets: seq<TableRef>, db: Option<string>, answers: seq<bool>, there: bool): seq<TableId>
    requires |answers| <= |targets| && forall k :: 0 <= k < |answers| ==> Resolve(targets[k], db).Some?
  {
    if answers == [] then [] else
      var k := |answers| - 1;
      Those(targets, db, answers[..k], there)
      + if answers[k] == there then [Resolve(targets[k], db).value] else []
  }

  /** The loop of the DROP preflight. `lookups` holds the server's answers in the order asked; a
      query can fail. */
  method PreflightDrop(stmt: DropStatement, db: Option<string>, lookups: seq<Option<bool>>)
    returns (r: Preflight, asked: nat)
    requires |lookups| == |stmt.targets|
    ensures asked <= |lookups|
    ensures forall k :: 0 <= k < asked ==> Resolve(stmt.targets[k], db).Some? && lookups[k].Some?
    ensures asked < |lookups| ==>
              r == if Resolve(stmt.targets[asked], db).None? then Unresolved(stmt.targets[asked].table) else QueryFailed
    ensures asked < |lookups| && r.QueryFailed? ==> lookups[asked].None?
    ensures asked == |lookups| ==>
              var answers := Answers(lookups);
              r == Conclude(Those(stmt.targets, db, answers, true), Those(stmt.targets, db, answers, false),
                            stmt.ifExists)
  {
    var existing, missing := [], [];
    asked := 0;
    while asked < |lookups|
      invariant asked <= |lookups|
      invariant forall k :: 0 <= k < asked ==> Resolve(stmt.targets[k], db).Some? && lookups[k].Some?
      invariant existing == Those(stmt.targets, db, Answers(lookups[..asked]), true)
      invariant missing == Those(stmt.targets, db, Answers(lookups[..asked]), false)
    {
      var id := Resolve(stmt.targets[asked], db);
      if id.None? {
        return Unresolved(stmt.targets[asked].table), asked;
      }
      if lookups[asked].None? {
        return QueryFailed, asked;
      }
      assert Answers(lookups[..asked + 1])[..asked] == Answers(lookups[..asked]);
      if lookups[asked].value {
        existing := existing + [id.value];
      } else {
        missing := missing + [id.value];
      }
      asked := asked + 1;
    }
    assert lookups[..asked] == lookups;
    if missing == [] {
      r := AllPresent;
    } else if !stmt.ifExists {
      r := Missing(missing[0]);
    } else if existing == [] {
      r := MissingNoOp(missing);
    } else {
      r := Mixed(existing, missing);
    }
  }

  function Answers(lookups: seq<Option<bool>>): seq<bool>
    requires forall k :: 0 <= k < |lookups| ==> lookups[k].Some?
  {
    seq(|lookups|, k requires 0 <= k < |lookups| => lookups[k].value)
  }

  /** The two lists split the targets: nothing is lost, nothing is added, nothing is in the wrong one. */
  lemma {:induction false} ThoseAre(targets: seq<TableRef>, db: Option<string>, answers: seq<bool>, there: bool)
    requires |answers| <= |targets| && forall k :: 0 <= k < |answers| ==> Resolve(targets[k], db).Some?
    ensures forall id :: id in Those(targets, db, answers, there) <==>
              exists k :: 0 <= k < |answers| && answers[k] == there && Resolve(targets[k], db) == Some(id)
    ensures |Those(targets, db, answers, true)| + |Those(targets, db, answers, false)| == |answers|
    decreases |answers|
  {
    if answers != [] {
      var n := |answers| - 1;
      ThoseAre(targets, db, answers[..n], there);
      forall id
        ensures id in Those(targets, db, answers, there) <==>
                exists k :: 0 <= k < |answers| && answers[k] == there && Resolve(targets[k], db) == Some(id)
      {
        assert forall k :: 0 <= k < n ==> answers[..n][k] == answers[k];
        if exists k :: 0 <= k < n && answers[..n][k] == there && Resolve(targets[k], db) == Some(id) {
          var k :| 0 <= k < n && answers[..n][k] == there && Resolve(targets[k], db) == Some(id);
          assert answers[k] == there;
        }
        if answers[n] == there && Resolve(targets[n], db) == Some(id) {
          assert id in Those(targets, db, answers, there);
        }
      }
    }
  }

  lemma {:induction false} NoneMissing(targets: seq<TableRef>, db: Option<string>, answers: seq<bool>)
    requires |answers| <= |targets| && forall k :: 0 <= k < |answers| ==> Resolve(targets[k], db).Some?
    ensures Those(targets, db, answers, false) == [] <==> false !in answers
    ensures Those(targets, db, answers, false) == [] <==> answers == seq(|answers|, _ => true)
    decreases |answers|
  {
    if answers != [] {
      var n := |answers| - 1;
      NoneMissing(targets, db, answers[..n]);
      assert answers == answers[..n] + [answers[n]];
      assert seq(|answers|, _ => true) == seq(n, _ => true) + [true];
    }
  }

  // ----- The protocol -----

  datatype Sent =
    | Original
    | Rewritten(sql: string)

  datatype Outcome =
    | PlanFailed | NotApproved | GateRefused | CheckFailed | PreconditionChanged | NotRewritable
    | NoOp | BackupFailed | Executed | SendFailed

  datatype Stage =
    | Planning(answers: seq<bool>)
    | Asked
    | Replanning(answers: seq<bool>)
    | Consent
    | InGate
    | Checking(answers: seq<bool>)
    | Sending(what: Sent)
    | Finished(outcome: Outcome)

  datatype World = World(
    stmt: DropStatement,
    planDb: Option<string>,
    execDb: Option<string>,          // the default database when the gate runs; may differ
    catalog: set<TableId>,
    stage: Stage,
    plan: Option<seq<TableId>>,      // the approved targets, kept in the pending store
    found: set<TableId>,             // tables the first plan's queries found to exist
    sent: Option<Sent>,
    removed: set<TableId>)           // tables this statement has dropped

  function Start(stmt: DropStatement, db: Option<string>, catalog: set<TableId>): World {
    World(stmt, db, db, catalog, Planning([]), None, {}, None, {})
  }

  datatype Action =
    | Query(works: bool)                         // one existence query, or drawing the conclusion
    | Retry
    | Answer(approves: bool)                     // token consumed and the user's answer read
    | RunGate(passes: bool, db: Option<string>)
    | CaptureFails
    | Deliver(reaches: bool)
    | OtherCreates(id: TableId)
    | OtherDrops(id: TableId)

  predicate Resolved(w: World, db: Option<string>, n: nat) {
    n <= |w.stmt.targets| && forall k :: 0 <= k < n ==> Resolve(w.stmt.targets[k], db).Some?
  }

  function Verdict(w: World, db: Option<string>, answers: seq<bool>): Preflight
    requires Resolved(w, db, |answers|)
  {
    Conclude(Those(w.stmt.targets, db, answers, true), Those(w.stmt.targets, db, answers, false), w.stmt.ifExists)
  }

  function AllTargets(w: World, db: Option<string>): seq<TableId>
    requires Resolved(w, db, |w.stmt.targets|)
  {
    Those(w.stmt.targets, db, seq(|w.stmt.targets|, _ => true), true)
  }

  /** The first plan: what it fixes as the approved targets. */
  function Plan(w: World, answers: seq<bool>): World
    requires Resolved(w, w.planDb, |answers|) && |answers| == |w.stmt.targets|
  {
    match Verdict(w, w.planDb, answers)
    case AllPresent => w.(plan := Some(AllTargets(w, w.planDb)), stage := Asked)
    case Mixed(existing, _) => w.(plan := Some(existing), stage := Asked)
    case MissingNoOp(_) => w.(plan := Some([]), stage := Asked)
    case _ => w.(stage := Finished(PlanFailed))
  }

  /** The executor's own preflight: what it lets through. */
  function Check(w: World, answers: seq<bool>): World
    requires Resolved(w, w.execDb, |answers|) && |answers| == |w.stmt.targets| && w.plan.Some?
  {
    match Verdict(w, w.execDb, answers)
    case AllPresent =>
      if forall id :: id in AllTargets(w, w.execDb) ==> id in w.plan.value then w.(stage := Sending(Original))
      else w.(stage := Finished(PreconditionChanged))
    case Mixed(existing, _) =>
      if exists id :: id in existing && id !in w.plan.value then w.(stage := Finished(PreconditionChanged))
      else (match RewriteDropSubset(w.stmt.objectType.Label(), existing)
            case Some(sql) => w.(stage := Sending(Rewritten(sql)))
            case None => w.(stage := Finished(NotRewritable)))
    case MissingNoOp(_) => w.(stage := Finished(NoOp))
    case _ => w.(stage := Finished(CheckFailed))
  }

  /** The names listed in a statement that is sent as it was. */
  function Listed(w: World): set<TableId> {
    if Resolved(w, w.execDb, |w.stmt.targets|) then set id | id in AllTargets(w, w.execDb) else {}
  }

  function HiddenIds(stmt: DropStatement, db: Option<string>): set<TableId> {
    set k | 0 <= k < |stmt.hidden| && Resolve(stmt.hidden[k], db).Some? :: Resolve(stmt.hidden[k], db).value
  }

  predicate IsNamedSchema(w: World, schema: string) {
    exists i :: 0 <= i < |w.stmt.targets| && w.stmt.targets[i].table == schema
  }

  /** What a sent statement means to drop. A dropped schema takes every table in it along; an index or a
      role is no catalog entry. */
  function Named(w: World, what: Sent): set<TableId> {
    match what
    case Original =>
      if w.stmt.NamesItsTargets() then Listed(w) + HiddenIds(w.stmt, w.execDb)
      else if w.stmt.objectType == Schema then set id | id in w.catalog && IsNamedSchema(w, id.schema)
      else {}
    case Rewritten(sql) =>
      match ReadDrop(sql) case Some(ts) => (set id | id in ts) case None => {}
  }

  /** The server drops what exists of the named entries; without IF EXISTS all of them or none. */
  function Dropped(w: World, what: Sent): set<TableId> {
    var named := Named(w, what);
    if w.stmt.ifExists || named <= w.catalog then named * w.catalog else {}
  }

  function Step(w: World, a: Action): World {
    match a
    case Query(works) =>
      (match w.stage
       case Planning(answers) =>
         if !Resolved(w, w.planDb, |answers|) then w
         else if |answers| == |w.stmt.targets| then Plan(w, answers)
         else if !works || Resolve(w.stmt.targets[|answers|], w.planDb).None? then w.(stage := Finished(PlanFailed))
         else
           var id := Resolve(w.stmt.targets[|answers|], w.planDb).value;
           w.(stage := Planning(answers + [id in w.catalog]),
              found := w.found + (if id in w.catalog then {id} else {}))
       case Replanning(answers) =>
         if !Resolved(w, w.planDb, |answers|) then w
         else if |answers| == |w.stmt.targets| then
           (match Verdict(w, w.planDb, answers)
            case Missing(_) => w.(stage := Finished(PlanFailed))
            case _ => w.(stage := Consent))
         else if !works || Resolve(w.stmt.targets[|answers|], w.planDb).None? then w.(stage := Finished(PlanFailed))
         else w.(stage := Replanning(answers + [Resolve(w.stmt.targets[|answers|], w.planDb).value in w.catalog]))
       case Checking(answers) =>
         if !Resolved(w, w.execDb, |answers|) || w.plan.None? then w
         else if |answers| == |w.stmt.targets| then Check(w, answers)
         else if !works || Resolve(w.stmt.targets[|answers|], w.execDb).None? then w.(stage := Finished(CheckFailed))
         else w.(stage := Checking(answers + [Resolve(w.stmt.targets[|answers|], w.execDb).value in w.catalog]))
       case _ => w)
    case Retry => if w.stage.Asked? then w.(stage := Replanning([])) else w
    case Answer(approves) =>
      if w.stage.Consent? then w.(stage := if approves then InGate else Finished(NotApproved)) else w
    case RunGate(passes, db) =>
      if w.stage.InGate? then w.(execDb := db, stage := if passes then Checking([]) else Finished(GateRefused)) else w
    case CaptureFails => if w.stage.Sending? then w.(stage := Finished(BackupFailed)) else w
    case Deliver(reaches) =>
      if !w.stage.Sending? then w else
        var gone := if reaches then Dropped(w, w.stage.what) else {};
        w.(sent := Some(w.stage.what), removed := gone, catalog := w.catalog - gone,
           stage := Finished(if reaches then Executed else SendFailed))
    case OtherCreates(id) => w.(catalog := w.catalog + {id})
    case OtherDrops(id) => w.(catalog := w.catalog - {id})
  }

  function Run(w: World, actions: seq<Action>): World
    decreases |actions|
  {
    if actions == [] then w else Run(Step(w, actions[0]), actions[1..])
  }

  // ----- Safety of every interleaving -----

  predicate AllResolve(stmt: DropStatement, db: Option<string>) {
    forall k :: 0 <= k < |stmt.targets| ==> Resolve(stmt.targets[k], db).Some?
  }

  function TargetIds(stmt: DropStatement, db: Option<string>): set<TableId>
    requires AllResolve(stmt, db)
  {
    set k | 0 <= k < |stmt.targets| :: Resolve(stmt.targets[k], db).value
  }

  /** With `exec` in use when the statement is sent, it can pass for what was approved with `db` in use, and hides
      a name that need not have been found then. */
  ghost predicate Strays(stmt: DropStatement, db: Option<string>, exec: Option<string>)
    requires AllResolve(stmt, db)
  {
    && AllResolve(stmt, exec) && TargetIds(stmt, exec) <= TargetIds(stmt, db)
    && !(HiddenIds(stmt, exec) <= if stmt.ifExists then TargetIds(stmt, exec) else TargetIds(stmt, db))
  }

  /** Everything but what gets as far as being sent and drops a schema or hides a stray name. */
  ghost predicate Contained(stmt: DropStatement, db: Option<string>) {
    || !AllResolve(stmt, db)
    || (&& (stmt.objectType == Schema ==> stmt.targets == [])
        && (stmt.NamesItsTargets() ==> forall exec :: !Strays(stmt, db, exec)))
  }

  ghost predicate Inv(w: World) {
    && (w.stage.Planning? ==>
          && Resolved(w, w.planDb, |w.stage.answers|)
          && (forall k :: 0 <= k < |w.stage.answers| && w.stage.answers[k] ==>
                Resolve(w.stmt.targets[k], w.planDb).value in w.found))
    && (!AllResolve(w.stmt, w.planDb) ==> w.stage.Planning? || w.stage == Finished(PlanFailed))
    && (!AllResolve(w.stmt, w.planDb) ==> w.plan.None?)
    && (w.plan.Some? && AllResolve(w.stmt, w.planDb) ==>
          && (forall id :: id in w.plan.value ==> id in w.found && id in TargetIds(w.stmt, w.planDb))
          && (!w.stmt.ifExists ==> forall id :: id in TargetIds(w.stmt, w.planDb) ==> id in w.plan.value))
    && (w.stage.Sending? ==> w.plan.Some? && (w.stmt.objectType == Schema ==> w.stage.what == Original))
    && (w.stage.Sending? && Contained(w.stmt, w.planDb) ==>
          forall id :: id in Named(w, w.stage.what) ==> id in w.found)
    && (w.sent.None? ==> w.removed == {})
    && (w.sent.Some? <==> w.stage == Finished(Executed) || w.stage == Finished(SendFailed))
    && (Contained(w.stmt, w.planDb) ==> w.removed <= w.found)
  }

  lemma PlanKeepsInv(w: World, answers: seq<bool>)
    requires Inv(w) && w.stage == Planning(answers) && |answers| == |w.stmt.targets|
    ensures Inv(Plan(w, answers))
  {
    hide Contained, Named;
    ThoseAre(w.stmt.targets, w.planDb, answers, true);
    NoneMissing(w.stmt.targets, w.planDb, answers);
    TargetsAreTrue(w, w.planDb);
  }

  lemma TargetsAreTrue(w: World, db: Option<string>)
    requires AllResolve(w.stmt, db)
    ensures Resolved(w, db, |w.stmt.targets|)
    ensures forall id :: id in AllTargets(w, db) <==> id in TargetIds(w.stmt, db)
  {
    ThoseAre(w.stmt.targets, db, seq(|w.stmt.targets|, _ => true), true);
  }

  /** What the re-check lets through names only what the plan found. */
  lemma OriginalIsFound(w: World)
    requires Inv(w) && w.plan.Some? && AllResolve(w.stmt, w.execDb) && Contained(w.stmt, w.planDb)
    requires forall id :: id in AllTargets(w, w.execDb) ==> id in w.plan.value
    requires AllResolve(w.stmt, w.planDb)
    ensures forall id :: id in Named(w, Original) ==> id in w.found
  {
    TargetsAreTrue(w, w.execDb);
    if w.stmt.NamesItsTargets() {
      assert TargetIds(w.stmt, w.execDb) <= TargetIds(w.stmt, w.planDb);
      assert !Strays(w.stmt, w.planDb, w.execDb);
    }
  }

  lemma CheckKeepsInv(w: World, answers: seq<bool>)
    requires Inv(w) && w.stage == Checking(answers) && |answers| == |w.stmt.targets|
    requires Resolved(w, w.execDb, |answers|) && w.plan.Some?
    ensures Inv(Check(w, answers))
  {
    hide Contained;
    match Verdict(w, w.execDb, answers) {
      case Mixed(existing, _) =>
        RewriteNamesExactly(w.stmt.objectType.Label(), existing);
      case AllPresent =>
        if Contained(w.stmt, w.planDb) && forall id :: id in AllTargets(w, w.execDb) ==> id in w.plan.value {
          OriginalIsFound(w);
        }
        hide Named;
      case _ =>
    }
  }

  lemma QueryKeepsInv(w: World, works: bool)
    requires Inv(w)
    ensures Inv(Step(w, Query(works)))
  {
    hide Plan, Check;
    match w.stage {
      case Planning(answers) => if |answers| == |w.stmt.targets| { PlanKeepsInv(w, answers); }
      case Checking(answers) =>
        if Resolved(w, w.execDb, |answers|) && w.plan.Some? && |answers| == |w.stmt.targets| {
          CheckKeepsInv(w, answers);
        }
      case _ =>
    }
  }

  lemma StepKeepsInv(w: World, a: Action)
    requires Inv(w)
    ensures Inv(Step(w, a))
  {
    hide Plan, Check;
    match a {
      case Query(works) => QueryKeepsInv(w, works);
      case _ =>
    }
  }

  lemma {:induction false} RunKeepsInv(w: World, actions: seq<Action>)
    requires Inv(w)
    ensures Inv(Run(w, actions)) && Run(w, actions).stmt == w.stmt && Run(w, actions).planDb == w.planDb
    decreases |actions|
  {
    hide Inv, Step;
    if actions != [] {
      StepKeepsInv(w, actions[0]);
      StepKeepsStatement(w, actions[0]);
      RunKeepsInv(Step(w, actions[0]), actions[1..]);
    }
  }

  lemma StepKeepsStatement(w: World, a: Action)
    ensures Step(w, a).stmt == w.stmt && Step(w, a).planDb == w.planDb
  {
  }

  /** However other sessions create and drop tables between the plan, the approval, the re-check and
      the send: what an approved DROP removes, the plan found to exist, unless a schema is dropped or a name
      strays; and a run that ends in a refusal or a no-op has sent nothing and removed nothing. */
  lemma OnlyPlannedTablesAreDropped(stmt: DropStatement, db: Option<string>, catalog: set<TableId>,
                                    actions: seq<Action>)
    ensures var w := Run(Start(stmt, db, catalog), actions);
            && (Contained(stmt, db) ==> w.removed <= w.found)
            && (w.stage.Finished? && w.stage.outcome != Executed && w.stage.outcome != SendFailed ==>
                  w.sent == None && w.removed == {})
  {
    RunKeepsInv(Start(stmt, db, catalog), actions);
  }

  /** A table the plan did not find is out of reach of every later step of such a statement. */
  lemma LateTableSurvives(stmt: DropStatement, db: Option<string>, catalog: set<TableId>, actions: seq<Action>,
                          a: Action, id: TableId)
    requires Contained(stmt, db)
    requires var w := Run(Start(stmt, db, catalog), actions);
             id in w.catalog && id !in w.found && !w.stage.Planning?
    ensures id in Step(Run(Start(stmt, db, catalog), actions), a).catalog <==> a != OtherDrops(id)
  {
    var w := Run(Start(stmt, db, catalog), actions);
    RunKeepsInv(Start(stmt, db, catalog), actions);
    hide Plan, Check;
    if a.Query? {
      CatalogFixedByQuery(w, a.works);
    }
  }

  lemma CatalogFixedByQuery(w: World, works: bool)
    ensures Step(w, Query(works)).catalog == w.catalog
  {
  }

  /** When nothing interferes, the re-check lets through exactly what was planned: the same lookups on
      the same database send a statement that names the plan's targets and no others, end in a no-op
      when none existed, and are refused only for object types that cannot be rewritten. An index or a
      role is checked as if it were a table, and sent without touching any. */
  lemma QuietCheckSendsThePlan(w: World, w': World, answers: seq<bool>)
    requires Contained(w.stmt, w.planDb)
    requires |answers| == |w.stmt.targets| && Resolved(w, w.planDb, |answers|)
    requires Plan(w, answers).stage == Asked
    requires w'.stmt == w.stmt && w'.execDb == w.planDb && w'.plan == Plan(w, answers).plan
    ensures var next, plan := Check(w', answers), Plan(w, answers).plan.value;
            if plan == [] && answers != [] then next.stage == Finished(NoOp)
            else if false in answers && !w.stmt.objectType.Table? && !w.stmt.objectType.View? then
              next.stage == Finished(NotRewritable)
            else
              && next.stage.Sending?
              && Named(w', next.stage.what) == if w.stmt.NamesItsTargets() then set id | id in plan else {}
  {
    hide Those, ReadDrop, RewriteDropSubset;
    NoneMissing(w.stmt.targets, w.planDb, answers);
    RewriteNamesExactly(w.stmt.objectType.Label(), Those(w.stmt.targets, w.planDb, answers, true));
    NoTargets(w, w.planDb, answers);
    NothingStrays(w', w.planDb);
    hide HiddenIds, Contained;
  }

  lemma NothingStrays(w: World, db: Option<string>)
    requires Contained(w.stmt, db) && AllResolve(w.stmt, db) && w.execDb == db
    ensures w.stmt.NamesItsTargets() ==> Named(w, Original) == set id | id in AllTargets(w, db)
    ensures !w.stmt.NamesItsTargets() ==> Named(w, Original) == {}
  {
    TargetsAreTrue(w, db);
    if w.stmt.NamesItsTargets() {
      assert !Strays(w.stmt, db, db);
    }
  }

  lemma NoTargets(w: World, db: Option<string>, answers: seq<bool>)
    requires Resolved(w, db, |answers|)
    ensures |Those(w.stmt.targets, db, answers, true)| + |Those(w.stmt.targets, db, answers, false)| == |answers|
  {
    ThoseAre(w.stmt.targets, db, answers, true);
  }

  // ----- How the lookups end -----

  /** The plan is put to the user exactly when every target was found or the statement says IF EXISTS, and what is
      approved then is exactly what was found. */
  lemma PlanAsksIff(w: World, answers: seq<bool>)
    requires Resolved(w, w.planDb, |answers|) && |answers| == |w.stmt.targets|
    ensures var next := Plan(w, answers);
            && (next.stage == Asked <==> w.stmt.ifExists || false !in answers)
            && (next.stage != Asked ==> next.stage == Finished(PlanFailed) && next.plan == w.plan)
            && (next.stage == Asked ==>
                  next.plan.Some? && forall id :: id in next.plan.value <==>
                    exists k :: 0 <= k < |answers| && answers[k] && Resolve(w.stmt.targets[k], w.planDb).value == id)
  {
    ThoseAre(w.stmt.targets, w.planDb, answers, true);
    ThoseAre(w.stmt.targets, w.planDb, seq(|answers|, _ => true), true);
    NoneMissing(w.stmt.targets, w.planDb, answers);
    NoTargets(w, w.planDb, answers);
  }

  lemma NoneFound(w: World, db: Option<string>, answers: seq<bool>)
    requires Resolved(w, db, |answers|)
    ensures Those(w.stmt.targets, db, answers, true) == [] <==> true !in answers
    ensures Those(w.stmt.targets, db, answers, false) == [] <==> false !in answers
    ensures answers == [] ==> Those(w.stmt.targets, db, answers, true) == []
  {
    var found := Those(w.stmt.targets, db, answers, true);
    ThoseAre(w.stmt.targets, db, answers, true);
    NoneMissing(w.stmt.targets, db, answers);
    if found != [] {
      assert found[0] in found;
    }
    if true in answers {
      var k :| 0 <= k < |answers| && answers[k];
      assert Resolve(w.stmt.targets[k], db).value in found;
    }
  }

  /** The re-check fails exactly when a target is gone without IF EXISTS, and is a no-op exactly when all are gone
      with it. */
  lemma CheckEndsIff(w: World, answers: seq<bool>)
    requires Resolved(w, w.execDb, |answers|) && |answers| == |w.stmt.targets| && w.plan.Some?
    ensures var next := Check(w, answers);
            && (next.stage == Finished(CheckFailed) <==> !w.stmt.ifExists && false in answers)
            && (next.stage == Finished(NoOp) <==> w.stmt.ifExists && true !in answers && answers != [])
  {
    NoneFound(w, w.execDb, answers);
    hide Those, RewriteDropSubset;
    assert answers != [] ==> true in answers || false in answers by {
      assert answers != [] ==> answers[0] in answers;
    }
  }

  /** What is rewritten keeps its kind of object, and only tables and views are. */
  lemma RewriteKeepsKind(w: World, answers: seq<bool>)
    requires Resolved(w, w.execDb, |answers|) && |answers| == |w.stmt.targets| && w.plan.Some?
    requires Check(w, answers).stage.Sending? && Check(w, answers).stage.what.Rewritten?
    ensures var sql := Check(w, answers).stage.what.sql;
            && (w.stmt.objectType.Table? ==> "DROP TABLE IF EXISTS " <= sql)
            && (w.stmt.objectType.View? ==> "DROP VIEW IF EXISTS " <= sql)
            && (w.stmt.objectType.Table? || w.stmt.objectType.View?)
  {
    hide Those, PrintTargets;
    RewriteStarts(w.stmt.objectType.Label(), Those(w.stmt.targets, w.execDb, answers, true));
    hide RewriteDropSubset;
  }

  lemma RewriteStarts(kind: string, existing: seq<TableId>)
    ensures var sql := RewriteDropSubset(kind, existing);
            sql.Some? ==>
              && (kind == "table" ==> "DROP TABLE IF EXISTS " <= sql.value)
              && (kind == "view" ==> "DROP VIEW IF EXISTS " <= sql.value)
              && (kind == "table" || kind == "view")
  {
    hide PrintTargets;
  }

  // ----- Nothing is sent without every consent -----

  /** The action stops the statement: an existence query that fails, the user's no, the gate's no, a failed backup. */
  predicate Refuses(w: World, a: Action) {
    match a
    case Query(works) => !works && LooksUp(w)
    case Answer(approves) => w.stage.Consent? && !approves
    case RunGate(passes, _) => w.stage.InGate? && !passes
    case CaptureFails => w.stage.Sending?
    case _ => false
  }

  /** A target is still to be looked up. */
  predicate LooksUp(w: World) {
    match w.stage
    case Planning(answers) => Resolved(w, w.planDb, |answers|) && |answers| < |w.stmt.targets|
    case Replanning(answers) => Resolved(w, w.planDb, |answers|) && |answers| < |w.stmt.targets|
    case Checking(answers) => Resolved(w, w.execDb, |answers|) && |answers| < |w.stmt.targets| && w.plan.Some?
    case _ => false
  }

  /** Finished without anything sent. */
  predicate Unsent(w: World) {
    w.stage.Finished? && w.sent.None? && w.removed == {}
  }

  lemma {:induction false} UnsentForGood(w: World, actions: seq<Action>)
    requires Unsent(w)
    ensures Unsent(Run(w, actions))
    decreases |actions|
  {
    if actions != [] {
      UnsentForGood(Step(w, actions[0]), actions[1..]);
    }
  }

  lemma RefusalFinishes(w: World, a: Action)
    requires Inv(w) && Refuses(w, a)
    ensures Unsent(Step(w, a))
  {
    hide Contained, Named, Dropped;
  }

  /** Whatever happens before and after: once a query has failed, the user has declined, the gate has refused or the
      backup has failed, nothing is ever sent and nothing removed. */
  lemma RefusalSendsNothing(stmt: DropStatement, db: Option<string>, catalog: set<TableId>, actions: seq<Action>,
                            i: nat)
    requires i < |actions| && Refuses(Run(Start(stmt, db, catalog), actions[..i]), actions[i])
    ensures var w := Run(Start(stmt, db, catalog), actions);
            w.sent == None && w.removed == {} && w.stage.Finished?
  {
    var start := Start(stmt, db, catalog);
    var w := Run(start, actions[..i]);
    assert actions == actions[..i] + ([actions[i]] + actions[i + 1..]);
    RunConcat(start, actions[..i], [actions[i]] + actions[i + 1..]);
    RunKeepsInv(start, actions[..i]);
    RefusalFinishes(w, actions[i]);
    assert ([actions[i]] + actions[i + 1..])[0] == actions[i];
    assert ([actions[i]] + actions[i + 1..])[1..] == actions[i + 1..];
    hide Step, Refuses, Unsent;
    UnsentForGood(Step(w, actions[i]), actions[i + 1..]);
    Unsentness(Run(start, actions));
  }

  lemma Unsentness(w: World)
    ensures Unsent(w) <==> w.stage.Finished? && w.sent.None? && w.removed == {}
  {
  }

  /** How far a statement has come. */
  function Progress(w: World): nat {
    match w.stage
    case Planning(_) => 0
    case Asked => 1
    case Replanning(_) => 2
    case Consent => 3
    case InGate => 4
    case Checking(_) => 5
    case Sending(_) => 6
    case Finished(_) => if w.sent.Some? then 7 else 0
  }

  /** What takes a statement from one milestone to the next. */
  predicate Advances(w: World, a: Action) {
    match Progress(w)
    case 0 => a.Query?
    case 1 => a == Retry
    case 2 => a.Query?
    case 3 => a == Answer(true)
    case 4 => a.RunGate? && a.passes
    case 5 => a.Query?
    case 6 => a.Deliver?
    case _ => false
  }

  lemma OneStepAhead(w: World, a: Action)
    requires w.sent.Some? ==> w.stage.Finished?
    ensures Progress(Step(w, a)) <= Progress(w)
         || (Progress(Step(w, a)) == Progress(w) + 1 && Advances(w, a))
  {
    hide Verdict, Named, Dropped;
  }

  lemma SentIsFinished(w: World)
    requires Inv(w)
    ensures w.sent.Some? ==> w.stage.Finished?
  {
  }

  /** On the way to the milestone after `p`, the run takes the step that leads there. */
  lemma {:induction false} TakesTheStep(w: World, actions: seq<Action>, p: nat) returns (i: nat)
    requires Inv(w) && Progress(w) <= p < Progress(Run(w, actions))
    ensures i < |actions| && Progress(Run(w, actions[..i])) == p && Advances(Run(w, actions[..i]), actions[i])
    decreases |actions|
  {
    SentIsFinished(w);
    hide Step, Progress, Advances, Inv;
    OneStepAhead(w, actions[0]);
    StepKeepsInv(w, actions[0]);
    if Progress(Step(w, actions[0])) <= p {
      i := TakesTheStep(Step(w, actions[0]), actions[1..], p);
      assert actions[..i + 1][0] == actions[0] && actions[..i + 1][1..] == actions[1..][..i];
      i := i + 1;
    } else {
      i := 0;
      assert actions[..0] == [];
    }
  }

  /** A statement that was sent was planned and retried, approved by the user when asked, and passed by the gate. */
  lemma SentWasApproved(stmt: DropStatement, db: Option<string>, catalog: set<TableId>, actions: seq<Action>)
    returns (retried: nat, approved: nat, passed: nat, delivered: nat)
    requires Run(Start(stmt, db, catalog), actions).sent.Some?
    ensures var start := Start(stmt, db, catalog);
            && retried < |actions| && actions[retried] == Retry && Run(start, actions[..retried]).stage.Asked?
            && approved < |actions| && actions[approved] == Answer(true)
            && Run(start, actions[..approved]).stage.Consent?
            && passed < |actions| && actions[passed].RunGate? && actions[passed].passes
            && Run(start, actions[..passed]).stage.InGate?
            && delivered < |actions| && actions[delivered].Deliver? && Run(start, actions[..delivered]).stage.Sending?
  {
    var start := Start(stmt, db, catalog);
    RunKeepsInv(start, actions);
    hide Step, Run;
    retried := TakesTheStep(start, actions, 1);
    approved := TakesTheStep(start, actions, 3);
    passed := TakesTheStep(start, actions, 4);
    delivered := TakesTheStep(start, actions, 6);
  }

  // ----- The statements that are not contained -----

  lemma {:induction false} RunConcat(w: World, a: seq<Action>, b: seq<Action>)
    ensures Run(w, a + b) == Run(Run(w, a), b)
    decreases |a|
  {
    hide Step;
    if a == [] {
      assert a + b == b;
    } else {
      assert (a + b)[1..] == a[1..] + b;
      RunConcat(Step(w, a[0]), a[1..], b);
    }
  }

  /** The three rounds of lookups. */
  datatype Round = ForPlan | ForRetry | ForSend

  function Looking(w: World, round: Round, answers: seq<bool>): World {
    w.(stage := match round
                case ForPlan => Planning(answers)
                case ForRetry => Replanning(answers)
                case ForSend => Checking(answers))
  }

  function UsedIn(w: World, round: Round): Option<string> {
    if round == ForSend then w.execDb else w.planDb
  }

  /** What the first `k` lookups answer. */
  function Seen(w: World, db: Option<string>, k: nat): seq<bool>
    requires AllResolve(w.stmt, db) && k <= |w.stmt.targets|
  {
    seq(k, i requires 0 <= i < k => Resolve(w.stmt.targets[i], db).value in w.catalog)
  }

  /** The targets found by lookups from the `k`-th on. */
  function FoundFrom(w: World, db: Option<string>, k: nat): set<TableId>
    requires AllResolve(w.stmt, db)
  {
    set i | k <= i < |w.stmt.targets| && Resolve(w.stmt.targets[i], db).value in w.catalog ::
      Resolve(w.stmt.targets[i], db).value
  }

  /** The world after the `k`-th lookup, as far as it is remembered. */
  function Noted(w: World, round: Round, k: nat): World
    requires AllResolve(w.stmt, UsedIn(w, round)) && k < |w.stmt.targets|
  {
    var id := Resolve(w.stmt.targets[k], UsedIn(w, round)).value;
    if round == ForPlan then w.(found := w.found + if id in w.catalog then {id} else {}) else w
  }

  /** And after all lookups from the `k`-th on. */
  function NotedFrom(w: World, round: Round, k: nat): World
    requires AllResolve(w.stmt, UsedIn(w, round))
  {
    if round == ForPlan then w.(found := w.found + FoundFrom(w, UsedIn(w, round), k)) else w
  }

  lemma NotedStep(w: World, round: Round, k: nat)
    requires AllResolve(w.stmt, UsedIn(w, round)) && k < |w.stmt.targets|
    ensures UsedIn(Noted(w, round, k), round) == UsedIn(w, round)
    ensures NotedFrom(Noted(w, round, k), round, k + 1) == NotedFrom(w, round, k)
  {
    var db, w' := UsedIn(w, round), Noted(w, round, k);
    FoundOneMore(w, db, k);
    assert FoundFrom(w', db, k + 1) == FoundFrom(w, db, k + 1);
    hide FoundFrom;
  }

  lemma NotedNone(w: World, round: Round)
    requires AllResolve(w.stmt, UsedIn(w, round))
    ensures NotedFrom(w, round, |w.stmt.targets|) == w
  {
    assert FoundFrom(w, UsedIn(w, round), |w.stmt.targets|) == {};
    assert w.found + {} == w.found;
  }

  lemma SeenGrows(w: World, round: Round, k: nat)
    requires AllResolve(w.stmt, UsedIn(w, round)) && k < |w.stmt.targets|
    ensures var db, w' := UsedIn(w, round), Noted(w, round, k);
            && Seen(w', db, k + 1) == Seen(w, db, k) + [Resolve(w.stmt.targets[k], db).value in w.catalog]
            && Seen(w', db, |w.stmt.targets|) == Seen(w, db, |w.stmt.targets|)
  {
  }

  /** One round of undisturbed lookups. */
  lemma {:induction false} Lookups(w: World, round: Round, k: nat)
    requires AllResolve(w.stmt, UsedIn(w, round)) && k <= |w.stmt.targets| && (round == ForSend ==> w.plan.Some?)
    ensures var n, db := |w.stmt.targets|, UsedIn(w, round);
            Run(Looking(w, round, Seen(w, db, k)), seq(n - k, _ => Query(true)))
            == Looking(NotedFrom(w, round, k), round, Seen(w, db, n))
    decreases |w.stmt.targets| - k
  {
    hide Step, Seen, FoundFrom;
    var n := |w.stmt.targets|;
    if k == n {
      NotedNone(w, round);
    } else {
      OneLookup(w, round, k);
      NotedStep(w, round, k);
      SeenGrows(w, round, k);
      Lookups(Noted(w, round, k), round, k + 1);
      var queries := seq(n - k, _ => Query(true));
      assert queries[0] == Query(true) && queries[1..] == seq(n - k - 1, _ => Query(true));
    }
  }

  lemma OneLookup(w: World, round: Round, k: nat)
    requires AllResolve(w.stmt, UsedIn(w, round)) && k < |w.stmt.targets| && (round == ForSend ==> w.plan.Some?)
    ensures var db := UsedIn(w, round);
            Step(Looking(w, round, Seen(w, db, k)), Query(true))
            == Looking(Noted(w, round, k), round,
                       Seen(w, db, k) + [Resolve(w.stmt.targets[k], db).value in w.catalog])
  {
  }

  lemma FoundOneMore(w: World, db: Option<string>, k: nat)
    requires AllResolve(w.stmt, db) && k < |w.stmt.targets|
    ensures var id := Resolve(w.stmt.targets[k], db).value;
            FoundFrom(w, db, k) == (if id in w.catalog then {id} else {}) + FoundFrom(w, db, k + 1)
  {
  }

  lemma RunOne(w: World, a: Action)
    ensures Run(w, [a]) == Step(w, a)
  {
    assert Run(w, [a]) == Run(Step(w, a), []);
  }

  /** A round of lookups and the conclusion drawn from it. */
  lemma RoundOfLookups(w: World, round: Round, next: World) returns (actions: seq<Action>)
    requires AllResolve(w.stmt, UsedIn(w, round)) && (round == ForSend ==> w.plan.Some?)
    requires var seen := Seen(w, UsedIn(w, round), |w.stmt.targets|);
             Step(Looking(NotedFrom(w, round, 0), round, seen), Query(true)) == next
    ensures Run(Looking(w, round, []), actions) == next
  {
    hide Step, FoundFrom;
    var n, db := |w.stmt.targets|, UsedIn(w, round);
    var queries := seq(n, _ => Query(true));
    assert Seen(w, db, 0) == [];
    Lookups(w, round, 0);
    actions := queries + [Query(true)];
    RunOne(Looking(NotedFrom(w, round, 0), round, Seen(w, db, n)), Query(true));
    RunConcat(Looking(w, round, []), queries, [Query(true)]);
  }

  /** A catalog with which the statement is planned, approved and sent as it is. */
  ghost predicate Passable(stmt: DropStatement, db: Option<string>, exec: Option<string>, catalog: set<TableId>) {
    && AllResolve(stmt, db) && AllResolve(stmt, exec)
    && TargetIds(stmt, exec) <= catalog <= TargetIds(stmt, db)
    && (stmt.ifExists || catalog == TargetIds(stmt, db))
  }

  /** The tables found are the plan. */
  ghost predicate PlanIs(plan: seq<TableId>, found: set<TableId>) {
    forall id :: id in plan <==> id in found
  }

  lemma AllSeenIff(w: World, db: Option<string>)
    requires AllResolve(w.stmt, db)
    ensures false !in Seen(w, db, |w.stmt.targets|) <==> TargetIds(w.stmt, db) <= w.catalog
  {
    var n := |w.stmt.targets|;
    var answers := Seen(w, db, n);
    if false in answers {
      var k :| 0 <= k < n && !answers[k];
      assert Resolve(w.stmt.targets[k], db).value in TargetIds(w.stmt, db);
    } else {
      forall id | id in TargetIds(w.stmt, db) ensures id in w.catalog {
        var k :| 0 <= k < n && Resolve(w.stmt.targets[k], db).value == id;
        assert answers[k];
      }
    }
  }

  lemma ThoseSeen(w: World, db: Option<string>)
    requires AllResolve(w.stmt, db)
    ensures PlanIs(Those(w.stmt.targets, db, Seen(w, db, |w.stmt.targets|), true), FoundFrom(w, db, 0))
  {
    ThoseAre(w.stmt.targets, db, Seen(w, db, |w.stmt.targets|), true);
  }

  lemma VerdictOnSeen(w: World, db: Option<string>)
    requires AllResolve(w.stmt, db)
    ensures Resolved(w, db, |w.stmt.targets|)
    ensures var v := Verdict(w, db, Seen(w, db, |w.stmt.targets|));
            && (TargetIds(w.stmt, db) <= w.catalog ==> v == AllPresent)
            && (!(TargetIds(w.stmt, db) <= w.catalog) && w.stmt.ifExists && FoundFrom(w, db, 0) != {} ==>
                  v.Mixed? && PlanIs(v.existing, FoundFrom(w, db, 0)))
  {
    hide TargetIds, FoundFrom, Those;
    NoneMissing(w.stmt.targets, db, Seen(w, db, |w.stmt.targets|));
    AllSeenIff(w, db);
    ThoseSeen(w, db);
  }

  lemma FoundIsCatalog(stmt: DropStatement, db: Option<string>, exec: Option<string>, catalog: set<TableId>, w: World)
    requires Passable(stmt, db, exec, catalog) && w.stmt == stmt && w.catalog == catalog
    ensures FoundFrom(w, db, 0) == catalog
    ensures !(TargetIds(stmt, db) <= catalog) ==> stmt.ifExists && catalog != {}
  {
    forall id | id in catalog ensures id in FoundFrom(w, db, 0) {
      assert id in TargetIds(stmt, db);
    }
    if stmt.targets != [] {
      assert Resolve(stmt.targets[0], exec).value in TargetIds(stmt, exec);
    }
  }

  /** The plan is made, and found what the catalog holds. */
  lemma ReachApproval(stmt: DropStatement, db: Option<string>, exec: Option<string>, catalog: set<TableId>)
    returns (actions: seq<Action>, plan: seq<TableId>)
    requires Passable(stmt, db, exec, catalog)
    ensures PlanIs(plan, catalog)
    ensures Run(Start(stmt, db, catalog), actions)
         == Start(stmt, db, catalog).(found := catalog, plan := Some(plan), stage := Asked)
  {
    var start := Start(stmt, db, catalog);
    var looked := Looking(start.(found := catalog), ForPlan, Seen(start, db, |stmt.targets|));
    FoundIsCatalog(stmt, db, exec, catalog, start);
    VerdictOnSeen(looked, db);
    assert Seen(looked, db, |stmt.targets|) == Seen(start, db, |stmt.targets|);
    assert FoundFrom(looked, db, 0) == FoundFrom(start, db, 0);
    TargetsAreTrue(looked, db);
    plan := if TargetIds(stmt, db) <= catalog then AllTargets(looked, db)
            else Verdict(looked, db, Seen(start, db, |stmt.targets|)).existing;
    var next := start.(found := catalog, plan := Some(plan), stage := Asked);
    assert {} + FoundFrom(start, db, 0) == catalog;
    assert Step(looked, Query(true)) == next;
    actions := RoundOfLookups(start, ForPlan, next);
  }

  /** From the approval on to the lookups before the send. */
  lemma ReachChecking(w: World, exec: Option<string>) returns (actions: seq<Action>)
    requires Passable(w.stmt, w.planDb, exec, w.catalog) && w.stage == Asked
    ensures Run(w, actions) == w.(stage := Checking([]), execDb := exec)
  {
    FoundIsCatalog(w.stmt, w.planDb, exec, w.catalog, w);
    var looked := Looking(w, ForRetry, Seen(w, w.planDb, |w.stmt.targets|));
    VerdictOnSeen(w, w.planDb);
    var consent, gate := w.(stage := Consent), w.(stage := InGate);
    assert w.(found := w.found) == w;
    assert Step(looked, Query(true)) == consent;
    var retried := RoundOfLookups(w, ForRetry, consent);
    assert Step(w, Retry) == Looking(w, ForRetry, []);
    assert Step(consent, Answer(true)) == gate;
    assert Step(gate, RunGate(true, exec)) == w.(stage := Checking([]), execDb := exec);
    hide Step;
    RunOne(w, Retry);
    RunConcat(w, [Retry], retried);
    RunOne(consent, Answer(true));
    RunConcat(w, [Retry] + retried, [Answer(true)]);
    RunOne(gate, RunGate(true, exec));
    actions := [Retry] + retried + [Answer(true)] + [RunGate(true, exec)];
    RunConcat(w, [Retry] + retried + [Answer(true)], [RunGate(true, exec)]);
  }

  /** And to the sending of the original statement. */
  lemma ReachSending(stmt: DropStatement, db: Option<string>, exec: Option<string>, catalog: set<TableId>)
    returns (actions: seq<Action>, w: World)
    requires Passable(stmt, db, exec, catalog)
    ensures Run(Start(stmt, db, catalog), actions) == w
    ensures w.stage == Sending(Original) && w.stmt == stmt && w.planDb == db && w.execDb == exec
    ensures w.catalog == catalog == w.found
  {
    var planning, plan := ReachApproval(stmt, db, exec, catalog);
    var asked := Start(stmt, db, catalog).(found := catalog, plan := Some(plan), stage := Asked);
    var checking := ReachChecking(asked, exec);
    var before := asked.(stage := Checking([]), execDb := exec);
    w := before.(stage := Sending(Original));
    VerdictOnSeen(before, exec);
    TargetsAreTrue(before, exec);
    assert before.(found := before.found) == before;
    assert Step(Looking(before, ForSend, Seen(before, exec, |stmt.targets|)), Query(true)) == w;
    hide Step;
    var checked := RoundOfLookups(before, ForSend, w);
    assert Looking(before, ForSend, []) == before;
    RunConcat(Start(stmt, db, catalog), planning, checking);
    RunConcat(Start(stmt, db, catalog), planning + checking, checked);
    actions := planning + checking + checked;
  }

  /** Other sessions create `ids`. */
  lemma {:induction false} Create(w: World, ids: set<TableId>) returns (actions: seq<Action>)
    ensures Run(w, actions) == w.(catalog := w.catalog + ids)
    decreases ids
  {
    if ids == {} {
      actions := [];
      assert w.(catalog := w.catalog + {}) == w;
    } else {
      var id :| id in ids;
      var w' := w.(catalog := w.catalog + {id});
      var more := Create(w', ids - {id});
      assert Step(w, OtherCreates(id)) == w';
      assert w'.catalog + (ids - {id}) == w.catalog + ids;
      actions := [OtherCreates(id)] + more;
      assert actions[0] == OtherCreates(id) && actions[1..] == more;
    }
  }

  function LongName(targets: seq<TableRef>): (name: string)
    ensures forall k :: 0 <= k < |targets| ==> |targets[k].table| < |name|
  {
    if targets == [] then ""
    else
      var more := LongName(targets[1..]);
      assert forall k :: 1 <= k < |targets| ==> targets[k] == targets[1..][k - 1];
      more + targets[0].table + "x"
  }

  ghost predicate RemovesOnlyFound(stmt: DropStatement, db: Option<string>, catalog: set<TableId>,
                                   actions: seq<Action>) {
    var w := Run(Start(stmt, db, catalog), actions);
    w.removed <= w.found
  }

  /** A statement that is sent and names, in its own way, a table created after the approved plan. */
  lemma LateTableIsDropped(stmt: DropStatement, db: Option<string>, exec: Option<string>, catalog: set<TableId>,
                           late: TableId, ids: set<TableId>) returns (actions: seq<Action>)
    requires Passable(stmt, db, exec, catalog) && late in ids && late !in catalog
    requires var w := Start(stmt, db, catalog + ids).(execDb := exec);
             late in Named(w, Original) && (Named(w, Original) <= w.catalog)
    ensures var w := Run(Start(stmt, db, catalog), actions);
            w.stage == Finished(Executed) && late in w.removed && late !in w.found
  {
    var start := Start(stmt, db, catalog);
    var sending, w := ReachSending(stmt, db, exec, catalog);
    var creating := Create(w, ids);
    var sent := w.(catalog := catalog + ids);
    assert Named(sent, Original) == Named(Start(stmt, db, catalog + ids).(execDb := exec), Original);
    var end := Step(sent, Deliver(true));
    assert late in Dropped(sent, Original) && late in end.removed && end.found == catalog;
    hide Step;
    RunConcat(start, sending, creating);
    RunOne(sent, Deliver(true));
    actions := sending + creating + [Deliver(true)];
    RunConcat(start, sending + creating, [Deliver(true)]);
  }

  /** DROP SCHEMA users, with a table users in the database in use: the plan finds that table, and the
      approved statement removes the tables of a schema, one created after the plan included. */
  lemma SchemaDropIsNotContained(stmt: DropStatement, db: Option<string>) returns (actions: seq<Action>)
    requires stmt.objectType == Schema && stmt.targets != [] && AllResolve(stmt, db)
    ensures !RemovesOnlyFound(stmt, db, TargetIds(stmt, db), actions)
  {
    var late := TableId(stmt.targets[0].table, LongName(stmt.targets));
    var catalog := TargetIds(stmt, db);
    var w := Start(stmt, db, catalog + {late}).(execDb := db);
    assert IsNamedSchema(w, late.schema);
    actions := LateTableIsDropped(stmt, db, db, catalog, late, {late});
  }

  /** DROP TABLE a with b hidden in a comment: the plan finds a, and the approved statement removes b as well,
      created after the plan. */
  lemma StrayNameIsNotContained(stmt: DropStatement, db: Option<string>, exec: Option<string>)
    returns (catalog: set<TableId>, actions: seq<Action>)
    requires stmt.NamesItsTargets() && AllResolve(stmt, db) && Strays(stmt, db, exec)
    ensures !RemovesOnlyFound(stmt, db, catalog, actions)
  {
    catalog := if stmt.ifExists then TargetIds(stmt, exec) else TargetIds(stmt, db);
    var hidden := HiddenIds(stmt, exec);
    var late :| late in hidden && late !in catalog;
    var w := Start(stmt, db, catalog + hidden).(execDb := exec);
    TargetsAreTrue(w, exec);
    assert Listed(w) <= TargetIds(stmt, exec);
    actions := LateTableIsDropped(stmt, db, exec, catalog, late, hidden);
  }

  /** Exactly which statements remove only what their plan found, whatever other sessions do. */
  lemma ContainedIff(stmt: DropStatement, db: Option<string>)
    ensures Contained(stmt, db) <==> forall catalog, actions :: RemovesOnlyFound(stmt, db, catalog, actions)
  {
    if Contained(stmt, db) {
      forall catalog, actions ensures RemovesOnlyFound(stmt, db, catalog, actions) {
        OnlyPlannedTablesAreDropped(stmt, db, catalog, actions);
      }
    } else if stmt.objectType == Schema {
      var actions := SchemaDropIsNotContained(stmt, db);
    } else {
      var exec :| Strays(stmt, db, exec);
      var catalog, actions := StrayNameIsNotContained(stmt, db, exec);
    }
  }

  /** As long as the database in use stays the same, a name strays exactly when it is not among the targets. */
  lemma StraysInPlace(stmt: DropStatement, db: Option<string>)
    requires AllResolve(stmt, db)
    ensures Strays(stmt, db, db) <==>
            exists k :: 0 <= k < |stmt.hidden| && Resolve(stmt.hidden[k], db).Some?
                        && forall i :: 0 <= i < |stmt.targets| ==>
                             Resolve(stmt.targets[i], db) != Resolve(stmt.hidden[k], db)
  {
    if Strays(stmt, db, db) {
      var id :| id in HiddenIds(stmt, db) && id !in TargetIds(stmt, db);
    }
    if k :| 0 <= k < |stmt.hidden| && Resolve(stmt.hidden[k], db).Some?
            && forall i :: 0 <= i < |stmt.targets| ==> Resolve(stmt.targets[i], db) != Resolve(stmt.hidden[k], db)
    {
      assert Resolve(stmt.hidden[k], db).value in HiddenIds(stmt, db);
    }
  }
}
