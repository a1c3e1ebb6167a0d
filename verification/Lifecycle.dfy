/**
 One gated mutation across the local/remote boundary: the executor (src/sql/mysql.rs), the gate that
 closes the journal (src/app/gate.rs) and a remote server that answers as it likes.

 The local database and the server share no transaction, so the code writes a journal row around the
 work and throws the result of every journal write away. The machine below interleaves, in any order,
 the program's own steps, what the server does with the open transaction, the deadline, the dropping
 of the work future and a crash. Each step makes at most one durable change, so a crash can fall
 between any two of them.
*/
module Lifecycle {
  import opened Wrappers
  import opened Journal

  datatype Category = Write | Ddl | Admin

  /** The statement. Every write the classifier lets through needs a backup. */
  datatype Statement = Statement(category: Category, backupRequired: bool) {
    predicate WellClassified() {
      category == Write ==> backupRequired
    }
  }

  /** Where the program stands; the names of the awaits come first. */
  datatype Pc =
    | Begin             // START TRANSACTION READ WRITE
    | Preflight         // existence checks of a DDL statement
    | Capturing         // reading the pre-image
    | Executing         // the statement itself
    | Committing        // COMMIT
    | CommitFailed      // ROLLBACK after a failed COMMIT
    | Recover           // ROLLBACK after a failed statement or capture
    | OpenJournal | StartWork | LinkTheBackup | BackupSaved | Announce
    | RecordCommit | RecordUncertain | RecordFailed | Return(ok: bool)
    | GateOk | GateError | Finalize | LinkTheAudit
    | Done
    | Dead              // crashed, or the whole call was dropped

  /** The server's transaction on this connection. */
  datatype Tx = NoTx | Open | CommitSent | Ended

  datatype AuditOutcome = Approved | ExecutionError

  datatype Attempt = Attempt(from: JournalState, to: JournalState)

  datatype World = World(
    stmt: Statement,
    pc: Pc,
    tx: Tx,
    landed: bool,                   // the mutation is durable on the server
    expired: bool,                  // the statement deadline has fired
    commitFailed: bool,             // COMMIT was answered by an error
    journal: Option<Row>,
    audit: Option<AuditOutcome>,    // the durable audit row
    attempts: set<Attempt>)         // every transition tried so far

  function Start(stmt: Statement): World {
    World(stmt, Begin, NoTx, false, false, false, None, None, {})
  }

  /** How an await or a local write turned out. */
  datatype Answer = Good | Empty | Bad

  datatype Action =
    | Advance(answer: Answer, lost: bool)   // the program; `lost`: its journal write failed
    | StatementLands                        // DDL and admin statements commit by themselves
    | CommitLands                           // a COMMIT on the wire takes effect
    | ServerAborts                          // the transaction ends without effect
    | Deadline
    | DropWork                              // grace period over: the work future is dropped
    | Crash

  /** A journal write. The code ignores its result. */
  function Try(w: World, to: JournalState, lost: bool): World {
    if w.journal.None? || lost then w
    else w.(journal := Some(Moved(w.journal.value, to, None)),
            attempts := w.attempts + {Attempt(w.journal.value.state, to)})
  }

  function Goto(w: World, pc: Pc): World {
    w.(pc := pc)
  }

  predicate Awaiting(pc: Pc) {
    pc.Capturing? || pc.Executing? || pc.Committing? || pc.CommitFailed? || pc.Recover?
  }

  /** Opening the transaction and the journal, the DDL preflight, the backup. */
  function Prepare(w: World, answer: Answer, lost: bool): World {
    match w.pc
    case Begin =>
      if answer.Good? then w.(tx := Open, pc := OpenJournal)
      else if w.stmt.backupRequired then Goto(w, GateError)
      else Goto(w, OpenJournal)
    case OpenJournal =>
      w.(journal := if lost then None else Some(Row(Planned, None, None, None)),
         pc := if w.stmt.category == Ddl then Preflight else StartWork)
    case Preflight =>
      if answer.Good? then Goto(w, StartWork)
      else Goto(Try(w, Failed, lost), if answer.Empty? then GateOk else GateError)
    case StartWork =>
      Goto(Try(w, BackupCapturing, lost), if w.stmt.backupRequired then Capturing else Announce)
    case Capturing =>
      Goto(w, match answer case Good => LinkTheBackup case Empty => Announce case Bad => Recover)
    case LinkTheBackup =>
      w.(journal := if w.journal.None? || lost then w.journal else Some(w.journal.value.(backupId := Some(1))),
         pc := BackupSaved)
    case BackupSaved => Goto(Try(w, BackupDurable, lost), Announce)
    case Announce => Goto(Try(w, MutationExecuting, lost), Executing)
    case _ => w
  }

  /** The statement, and COMMIT or ROLLBACK. */
  function Work(w: World, answer: Answer): World {
    match w.pc
    case Executing =>
      if !answer.Good? || w.tx == Ended then Goto(w, Recover)
      else if w.tx == NoTx then w.(landed := true, pc := RecordCommit)
      else w.(tx := CommitSent, pc := Committing, landed := w.landed || w.stmt.category != Write)
    case Committing =>
      if !answer.Good? then w.(commitFailed := true, pc := CommitFailed)
      else if w.tx == Ended && w.landed then Goto(w, RecordCommit)
      else w
    case CommitFailed => Goto(w, RecordUncertain)
    case Recover => w.(tx := if w.tx == Open && answer.Good? then Ended else w.tx, pc := RecordFailed)
    case _ => w
  }

  /** What the journal is told about the mutation, and the return to the gate. */
  function Record(w: World, lost: bool): World {
    match w.pc
    case RecordUncertain => Goto(Try(w, Uncertain, lost), Return(false))
    case RecordCommit => Goto(Try(w, MutationCommitted, lost), Return(true))
    case RecordFailed => Goto(Try(w, Failed, lost), Return(false))
    case Return(ok) => Goto(w, if ok && !w.expired then GateOk else GateError)
    case _ => w
  }

  /** The audit row, and closing the journal over it. */
  function Gate(w: World, answer: Answer, lost: bool): World {
    match w.pc
    case GateOk =>
      if answer.Good? then w.(audit := Some(Approved), pc := if w.journal.Some? then Finalize else Done)
      else Goto(w, Done)
    case GateError => w.(audit := if answer.Good? then Some(ExecutionError) else w.audit, pc := Done)
    case Finalize => Goto(Try(w, AuditFinalized, lost), LinkTheAudit)
    case LinkTheAudit =>
      w.(journal := if w.journal.None? || lost then w.journal else Some(w.journal.value.(auditId := Some(1))),
         pc := Done)
    case _ => w
  }

  predicate Preparing(pc: Pc) {
    || pc.Begin? || pc.OpenJournal? || pc.Preflight? || pc.StartWork? || pc.Capturing?
    || pc.LinkTheBackup? || pc.BackupSaved? || pc.Announce?
  }

  predicate Closing(pc: Pc) {
    pc.GateOk? || pc.GateError? || pc.Finalize? || pc.LinkTheAudit?
  }

  predicate Working(pc: Pc) {
    pc.Executing? || pc.Committing? || pc.CommitFailed? || pc.Recover?
  }

  predicate Recording(pc: Pc) {
    pc.RecordUncertain? || pc.RecordCommit? || pc.RecordFailed? || pc.Return?
  }

  /** The program's next step. */
  function Program(w: World, answer: Answer, lost: bool): World {
    if Preparing(w.pc) then Prepare(w, answer, lost)
    else if Closing(w.pc) then Gate(w, answer, lost)
    else if Working(w.pc) then Work(w, answer)
    else if Recording(w.pc) then Record(w, lost)
    else w
  }

  /** One step of anything; an action that is not possible changes nothing. */
  function Step(w: World, a: Action): World {
    match a
    case Advance(answer, lost) => Program(w, answer, lost)
    case StatementLands =>
      if w.pc == Executing && (w.stmt.category != Write || w.tx == NoTx) then w.(landed := true) else w
    case CommitLands => if w.tx == CommitSent then w.(tx := Ended, landed := true) else w
    case ServerAborts => if w.tx.Open? || w.tx.CommitSent? then w.(tx := Ended) else w
    case Deadline => if Awaiting(w.pc) then w.(expired := true) else w
    case DropWork => if w.expired && Awaiting(w.pc) then Goto(w, GateError) else w
    case Crash => if w.pc == Done then w else Goto(w, Dead)
  }

  function Run(w: World, actions: seq<Action>): World
    decreases |actions|
  {
    if actions == [] then w else Run(Step(w, actions[0]), actions[1..])
  }

  /** The action loses a journal write at a point that is `reliable`. */
  predicate Loses(w: World, a: Action, reliable: Pc -> bool) {
    a.Advance? && a.lost && reliable(w.pc)
  }

  /** No journal write of the run is lost at a `reliable` point. */
  predicate WritesLandAt(w: World, actions: seq<Action>, reliable: Pc -> bool)
    decreases |actions|
  {
    actions == [] || (!Loses(w, actions[0], reliable) && WritesLandAt(Step(w, actions[0]), actions[1..], reliable))
  }

  /** The writes without which the row never comes to `mutation_executing`. */
  predicate Opening(pc: Pc) {
    pc.OpenJournal? || pc.StartWork? || pc.Announce?
  }

  /** The writes that a later attempt builds on. */
  predicate Key(pc: Pc) {
    pc.Preflight? || pc.StartWork? || pc.Announce? || pc.RecordCommit?
  }

  predicate Everywhere(pc: Pc) {
    true
  }

  // ----- What every step keeps -----

  /** The states the journal row can be in at each point when no key write is lost. */
  predicate RowFits(pc: Pc, row: JournalState) {
    match pc
    case Preflight | StartWork => row.Planned?
    case Capturing | LinkTheBackup | BackupSaved => row.BackupCapturing?
    case Announce => row.BackupCapturing? || row.BackupDurable?
    case Executing | Committing | CommitFailed | RecordUncertain | RecordCommit => row.MutationExecuting?
    case Recover | RecordFailed => row.BackupCapturing? || row.MutationExecuting?
    case Return(ok) => ok ==> row.MutationCommitted?
    case GateOk | Finalize => row.MutationCommitted? || row.Failed?
    case _ => true
  }

  /** The program counter and the journal row agree. */
  ghost predicate InStep(w: World) {
    && (w.pc.Begin? || w.pc.OpenJournal? ==> w.journal.None?)
    && (w.journal.None? ==> w.attempts == {})
    && (w.journal.Some? ==> RowFits(w.pc, w.journal.value.state))
    && (w.pc.Preflight? ==> w.stmt.category == Ddl)
    && ((w.pc.GateOk? || w.pc.Finalize?) && w.journal.Some? && w.journal.value.state == Failed
        ==> w.stmt.category == Ddl)
  }

  /** An allowed move, or the gate's attempt to finalize a DDL no-op that ended in `Failed`. */
  predicate LegalOrNoOpFinalize(stmt: Statement, t: Attempt) {
    Allowed(t.from, t.to) || (stmt.category == Ddl && t == Attempt(Failed, AuditFinalized))
  }

  ghost predicate AttemptsInOrder(w: World) {
    forall t :: t in w.attempts ==> LegalOrNoOpFinalize(w.stmt, t)
  }

  predicate BeforeCommit(pc: Pc) {
    || pc.OpenJournal? || pc.StartWork? || pc.Capturing? || pc.LinkTheBackup? || pc.BackupSaved?
    || pc.Announce? || pc.Executing? || pc.Recover? || pc.RecordFailed?
  }

  /** The executor has come back with an error. */
  predicate ErrorReturned(pc: Pc) {
    pc == Return(false) || pc.GateError?
  }

  /** What the journal says about a write is true, even when journal writes are lost. */
  ghost predicate NothingFalse(w: World) {
    && w.stmt.category == Write && w.stmt.backupRequired
    && !w.pc.Preflight?
    && (w.pc.Begin? ==> w.tx.NoTx?)
    && (w.pc.Begin? || w.pc.OpenJournal? ==> w.journal.None?)
    && (BeforeCommit(w.pc) ==> (w.tx.Open? || w.tx.Ended?) && !w.landed)
    && (w.pc.RecordCommit? || w.pc == Return(true) || (Closing(w.pc) && !w.pc.GateError?) ==> w.landed)
    && (w.landed ==> w.tx.Ended?)
    && (w.pc.Finalize? || w.pc.LinkTheAudit? ==> w.audit == Some(Approved))
    && (w.journal.Some? && w.journal.value.state.AuditFinalized? ==> w.pc.LinkTheAudit? || w.pc.Done? || w.pc.Dead?)
    && (w.journal.Some? ==> TrueOf(w.journal.value.state, w))
  }

  /** What a recorded state claims about the server and the audit log. */
  predicate TrueOf(state: JournalState, w: World) {
    && (state.Failed? ==> !w.landed && !w.tx.CommitSent? && (ErrorReturned(w.pc) || w.pc.Done? || w.pc.Dead?))
    && (state.MutationCommitted? || state.AuditFinalized? ==> w.landed)
    && (state.AuditFinalized? ==> w.audit == Some(Approved))
  }

  predicate RecordsLanding(row: Option<Row>) {
    row.Some? && (row.value.state.MutationExecuting? || SaysLanded(row.value.state))
  }

  /** All opening writes have landed so far. */
  ghost predicate OnTrack(w: World) {
    && (w.pc.Begin? || w.pc.OpenJournal? ==> w.journal.None?)
    && (!w.pc.Begin? && !w.pc.OpenJournal? && w.journal.None? ==> w.pc.GateError? || w.pc.Done? || w.pc.Dead?)
    && (w.journal.Some? ==>
          var row := w.journal.value.state;
          match w.pc
          case StartWork => row.Planned?
          case Capturing | LinkTheBackup | BackupSaved => row.BackupCapturing?
          case Announce => row.BackupCapturing? || row.BackupDurable?
          case Executing | Committing | CommitFailed | RecordUncertain | RecordCommit => row.MutationExecuting?
          case _ => true)
    && (w.landed || w.tx.CommitSent? ==> RecordsLanding(w.journal))
  }

  /** An opening write has been lost: the row can no longer come to `mutation_executing`. */
  ghost predicate OffTrack(w: World) {
    && !w.pc.Begin? && !w.pc.OpenJournal?
    && (w.journal.Some? ==>
          var row := w.journal.value.state;
          || ((row.Planned? || row.Failed?) && !w.pc.Preflight? && !w.pc.StartWork?)
          || ((row.BackupCapturing? || row.BackupDurable?) && !Preparing(w.pc)))
  }

  lemma PrepareKeepsInStep(w: World, answer: Answer, lost: bool)
    requires InStep(w) && !(lost && Key(w.pc)) && Preparing(w.pc)
    ensures InStep(Prepare(w, answer, lost))
  {
  }

  lemma WorkKeepsInStep(w: World, answer: Answer)
    requires InStep(w) && Working(w.pc)
    ensures InStep(Work(w, answer))
  {
  }

  lemma RecordKeepsInStep(w: World, lost: bool)
    requires InStep(w) && !(lost && Key(w.pc)) && Recording(w.pc)
    ensures InStep(Record(w, lost))
  {
  }

  lemma GateKeepsInStep(w: World, answer: Answer, lost: bool)
    requires InStep(w) && Closing(w.pc)
    ensures InStep(Gate(w, answer, lost))
  {
  }

  lemma StepKeepsInStep(w: World, a: Action)
    requires InStep(w) && !Loses(w, a, Key)
    ensures InStep(Step(w, a))
  {
    if a.Advance? {
      hide InStep, Prepare, Work, Record, Gate;
      if Preparing(w.pc) {
        PrepareKeepsInStep(w, a.answer, a.lost);
      } else if Working(w.pc) {
        WorkKeepsInStep(w, a.answer);
      } else if Recording(w.pc) {
        RecordKeepsInStep(w, a.lost);
      } else if Closing(w.pc) {
        GateKeepsInStep(w, a.answer, a.lost);
      }
    }
  }

  lemma PrepareKeepsNothingFalse(w: World, answer: Answer, lost: bool)
    requires NothingFalse(w) && Preparing(w.pc)
    ensures NothingFalse(Prepare(w, answer, lost))
  {
  }

  lemma WorkKeepsNothingFalse(w: World, answer: Answer)
    requires NothingFalse(w) && Working(w.pc)
    ensures NothingFalse(Work(w, answer))
  {
  }

  lemma RecordKeepsNothingFalse(w: World, lost: bool)
    requires NothingFalse(w) && Recording(w.pc)
    ensures NothingFalse(Record(w, lost))
  {
  }

  lemma GateKeepsNothingFalse(w: World, answer: Answer, lost: bool)
    requires NothingFalse(w) && Closing(w.pc)
    ensures NothingFalse(Gate(w, answer, lost))
  {
  }

  lemma StepKeepsNothingFalse(w: World, a: Action)
    requires NothingFalse(w)
    ensures NothingFalse(Step(w, a))
  {
    if a.Advance? {
      hide NothingFalse, Prepare, Work, Record, Gate;
      if Preparing(w.pc) {
        PrepareKeepsNothingFalse(w, a.answer, a.lost);
      } else if Working(w.pc) {
        WorkKeepsNothingFalse(w, a.answer);
      } else if Recording(w.pc) {
        RecordKeepsNothingFalse(w, a.lost);
      } else if Closing(w.pc) {
        GateKeepsNothingFalse(w, a.answer, a.lost);
      }
    }
  }

  lemma PrepareKeepsAttemptsInOrder(w: World, answer: Answer, lost: bool)
    requires InStep(w) && AttemptsInOrder(w) && !(lost && Key(w.pc)) && Preparing(w.pc)
    ensures AttemptsInOrder(Prepare(w, answer, lost))
  {
  }

  lemma WorkKeepsAttemptsInOrder(w: World, answer: Answer)
    requires InStep(w) && AttemptsInOrder(w) && Working(w.pc)
    ensures AttemptsInOrder(Work(w, answer))
  {
  }

  lemma RecordKeepsAttemptsInOrder(w: World, lost: bool)
    requires InStep(w) && AttemptsInOrder(w) && !(lost && Key(w.pc)) && Recording(w.pc)
    ensures AttemptsInOrder(Record(w, lost))
  {
  }

  lemma GateKeepsAttemptsInOrder(w: World, answer: Answer, lost: bool)
    requires InStep(w) && AttemptsInOrder(w) && Closing(w.pc)
    ensures AttemptsInOrder(Gate(w, answer, lost))
  {
  }

  lemma StepKeepsAttemptsInOrder(w: World, a: Action)
    requires InStep(w) && AttemptsInOrder(w) && !Loses(w, a, Key)
    ensures AttemptsInOrder(Step(w, a))
  {
    if a.Advance? {
      hide InStep, AttemptsInOrder, Prepare, Work, Record, Gate;
      if Preparing(w.pc) {
        PrepareKeepsAttemptsInOrder(w, a.answer, a.lost);
      } else if Working(w.pc) {
        WorkKeepsAttemptsInOrder(w, a.answer);
      } else if Recording(w.pc) {
        RecordKeepsAttemptsInOrder(w, a.lost);
      } else if Closing(w.pc) {
        GateKeepsAttemptsInOrder(w, a.answer, a.lost);
      }
    }
  }

  lemma PrepareKeepsOnTrack(w: World, answer: Answer, lost: bool)
    requires NothingFalse(w) && OnTrack(w) && Preparing(w.pc)
    ensures if lost && Opening(w.pc) then OffTrack(Prepare(w, answer, lost)) else OnTrack(Prepare(w, answer, lost))
  {
  }

  lemma WorkKeepsOnTrack(w: World, answer: Answer)
    requires NothingFalse(w) && OnTrack(w) && Working(w.pc)
    ensures OnTrack(Work(w, answer))
  {
  }

  lemma RecordKeepsOnTrack(w: World, lost: bool)
    requires NothingFalse(w) && OnTrack(w) && Recording(w.pc)
    ensures OnTrack(Record(w, lost))
  {
  }

  lemma GateKeepsOnTrack(w: World, answer: Answer, lost: bool)
    requires NothingFalse(w) && OnTrack(w) && Closing(w.pc)
    ensures OnTrack(Gate(w, answer, lost))
  {
  }

  lemma StepStaysOnTrack(w: World, a: Action)
    requires NothingFalse(w) && OnTrack(w)
    ensures if Loses(w, a, Opening) then OffTrack(Step(w, a)) else OnTrack(Step(w, a))
  {
    if a.Advance? {
      hide NothingFalse, OnTrack, OffTrack, Prepare, Work, Record, Gate;
      if Preparing(w.pc) {
        PrepareKeepsOnTrack(w, a.answer, a.lost);
      } else if Working(w.pc) {
        WorkKeepsOnTrack(w, a.answer);
      } else if Recording(w.pc) {
        RecordKeepsOnTrack(w, a.lost);
      } else if Closing(w.pc) {
        GateKeepsOnTrack(w, a.answer, a.lost);
      }
    }
  }

  lemma PrepareKeepsOffTrack(w: World, answer: Answer, lost: bool)
    requires OffTrack(w) && Preparing(w.pc)
    ensures OffTrack(Prepare(w, answer, lost))
  {
  }

  lemma WorkKeepsOffTrack(w: World, answer: Answer)
    requires OffTrack(w) && Working(w.pc)
    ensures OffTrack(Work(w, answer))
  {
  }

  lemma RecordKeepsOffTrack(w: World, lost: bool)
    requires OffTrack(w) && Recording(w.pc)
    ensures OffTrack(Record(w, lost))
  {
  }

  lemma GateKeepsOffTrack(w: World, answer: Answer, lost: bool)
    requires OffTrack(w) && Closing(w.pc)
    ensures OffTrack(Gate(w, answer, lost))
  {
  }

  lemma StepStaysOffTrack(w: World, a: Action)
    requires OffTrack(w)
    ensures OffTrack(Step(w, a))
  {
    if a.Advance? {
      hide OffTrack, Prepare, Work, Record, Gate;
      if Preparing(w.pc) {
        PrepareKeepsOffTrack(w, a.answer, a.lost);
      } else if Working(w.pc) {
        WorkKeepsOffTrack(w, a.answer);
      } else if Recording(w.pc) {
        RecordKeepsOffTrack(w, a.lost);
      } else if Closing(w.pc) {
        GateKeepsOffTrack(w, a.answer, a.lost);
      }
    }
  }

  // ----- What every run keeps -----

  /** Program counter and journal row stay in step, and every attempted transition is allowed, for every
      statement, every server, every deadline, drop and crash, as long as no key write is lost; the one
      exception is closing a DDL no-op. */
  lemma {:induction false} EveryAttemptIsLegal(w: World, actions: seq<Action>)
    requires InStep(w) && AttemptsInOrder(w) && WritesLandAt(w, actions, Key)
    ensures InStep(Run(w, actions)) && AttemptsInOrder(Run(w, actions))
    decreases |actions|
  {
    hide InStep, AttemptsInOrder, Step;
    if actions != [] {
      StepKeepsInStep(w, actions[0]);
      StepKeepsAttemptsInOrder(w, actions[0]);
      EveryAttemptIsLegal(Step(w, actions[0]), actions[1..]);
    }
  }

  lemma {:induction false} NothingFalseForever(w: World, actions: seq<Action>)
    requires NothingFalse(w)
    ensures NothingFalse(Run(w, actions))
    decreases |actions|
  {
    hide NothingFalse, Step;
    if actions != [] {
      StepKeepsNothingFalse(w, actions[0]);
      NothingFalseForever(Step(w, actions[0]), actions[1..]);
    }
  }

  lemma {:induction false} OffTrackForever(w: World, actions: seq<Action>)
    requires OffTrack(w)
    ensures OffTrack(Run(w, actions))
    decreases |actions|
  {
    hide OffTrack, Step;
    if actions != [] {
      StepStaysOffTrack(w, actions[0]);
      OffTrackForever(Step(w, actions[0]), actions[1..]);
    }
  }

  lemma {:induction false} OnTrackIffOpened(w: World, actions: seq<Action>)
    requires NothingFalse(w) && OnTrack(w)
    ensures if WritesLandAt(w, actions, Opening) then OnTrack(Run(w, actions)) else OffTrack(Run(w, actions))
    decreases |actions|
  {
    hide NothingFalse, OnTrack, OffTrack, Step;
    if actions != [] {
      StepKeepsNothingFalse(w, actions[0]);
      StepStaysOnTrack(w, actions[0]);
      if Loses(w, actions[0], Opening) {
        OffTrackForever(Step(w, actions[0]), actions[1..]);
      } else {
        OnTrackIffOpened(Step(w, actions[0]), actions[1..]);
      }
    }
  }

  lemma PrepareKeepsStmt(w: World, answer: Answer, lost: bool)
    requires Preparing(w.pc)
    ensures Prepare(w, answer, lost).stmt == w.stmt
  {
  }

  lemma WorkKeepsStmt(w: World, answer: Answer)
    requires Working(w.pc)
    ensures Work(w, answer).stmt == w.stmt
  {
  }

  lemma RecordKeepsStmt(w: World, lost: bool)
    requires Recording(w.pc)
    ensures Record(w, lost).stmt == w.stmt
  {
  }

  lemma GateKeepsStmt(w: World, answer: Answer, lost: bool)
    requires Closing(w.pc)
    ensures Gate(w, answer, lost).stmt == w.stmt
  {
  }

  lemma StepKeepsStmt(w: World, a: Action)
    ensures Step(w, a).stmt == w.stmt
  {
    if a.Advance? {
      hide Prepare, Work, Record, Gate;
      if Preparing(w.pc) {
        PrepareKeepsStmt(w, a.answer, a.lost);
      } else if Working(w.pc) {
        WorkKeepsStmt(w, a.answer);
      } else if Recording(w.pc) {
        RecordKeepsStmt(w, a.lost);
      } else if Closing(w.pc) {
        GateKeepsStmt(w, a.answer, a.lost);
      }
    }
  }

  lemma {:induction false} StmtIsFixed(w: World, actions: seq<Action>)
    ensures Run(w, actions).stmt == w.stmt
    decreases |actions|
  {
    hide Step;
    if actions != [] {
      StepKeepsStmt(w, actions[0]);
      StmtIsFixed(Step(w, actions[0]), actions[1..]);
    }
  }

  /** For every statement: each attempt is allowed, or it is the gate finalizing a DDL no-op. */
  lemma JournalAttempts(stmt: Statement, actions: seq<Action>)
    requires WritesLandAt(Start(stmt), actions, Key)
    ensures forall t :: t in Run(Start(stmt), actions).attempts ==>
              Allowed(t.from, t.to) || (stmt.category == Ddl && t == Attempt(Failed, AuditFinalized))
  {
    EveryAttemptIsLegal(Start(stmt), actions);
    StmtIsFixed(Start(stmt), actions);
  }

  /** For every write, even when journal writes are lost: `failed` means the mutation has not landed
      and never will; `mutation_committed` and `audit_finalized` mean it has; `audit_finalized` means
      the approved audit row is durable. */
  lemma RecordsAreTrue(stmt: Statement, actions: seq<Action>, later: seq<Action>)
    requires stmt.WellClassified() && stmt.category == Write
    ensures var w := Run(Start(stmt), actions);
            w.journal.Some? ==>
              && (w.journal.value.state == Failed ==> !Run(w, later).landed)
              && (w.journal.value.state in {MutationCommitted, AuditFinalized} ==> w.landed)
              && (w.journal.value.state == AuditFinalized ==> w.audit == Some(Approved))
  {
    var w := Run(Start(stmt), actions);
    NothingFalseForever(Start(stmt), actions);
    if w.journal.Some? && w.journal.value.state == Failed {
      FailedStaysUnlanded(w, later);
    }
  }

  lemma {:induction false} FailedStaysUnlanded(w: World, actions: seq<Action>)
    requires NothingFalse(w) && w.journal.Some? && w.journal.value.state == Failed
    ensures !Run(w, actions).landed
    decreases |actions|
  {
    if actions != [] {
      hide Step;
      StepKeepsNothingFalse(w, actions[0]);
      FailedIsFinal(w, actions[0]);
      FailedStaysUnlanded(Step(w, actions[0]), actions[1..]);
    }
  }

  lemma FailedIsFinal(w: World, a: Action)
    requires NothingFalse(w) && w.journal.Some? && w.journal.value.state == Failed
    ensures Step(w, a).journal.Some? && Step(w, a).journal.value.state == Failed
  {
  }

  /** A write that is durable on the server is on record as executing, committed, finalized or uncertain
      if and only if none of the three opening journal writes was lost; and then, unless an approved audit
      row is durable as well, its row is listed for recovery or marked uncertain. */
  lemma CommittedIsOnRecordIff(stmt: Statement, actions: seq<Action>)
    requires stmt.WellClassified() && stmt.category == Write
    ensures var w := Run(Start(stmt), actions);
            w.landed ==>
              && (RecordsLanding(w.journal) <==> WritesLandAt(Start(stmt), actions, Opening))
              && (RecordsLanding(w.journal) ==>
                    w.audit == Some(Approved) || InRecoveryQuery(w.journal.value) || w.journal.value.state == Uncertain)
  {
    NothingFalseForever(Start(stmt), actions);
    OnTrackIffOpened(Start(stmt), actions);
  }

  // ----- What the answers of a run decide -----

  /** What the program was answered, each answer with the point it was given at. */
  function Answered(w: World, actions: seq<Action>): set<(Pc, Answer)>
    decreases |actions|
  {
    if actions == [] then {}
    else Told(w, actions[0]) + Answered(Step(w, actions[0]), actions[1..])
  }

  function Told(w: World, a: Action): set<(Pc, Answer)> {
    if a.Advance? then {(w.pc, a.answer)} else {}
  }

  predicate Unasked(pc: Pc, told: set<(Pc, Answer)>) {
    (pc, Good) !in told && (pc, Empty) !in told && (pc, Bad) !in told
  }

  /** The pre-image was read, or there was none to read. */
  predicate Captured(told: set<(Pc, Answer)>) {
    ((Capturing, Good) in told || (Capturing, Empty) in told) && (Capturing, Bad) !in told
  }

  /** The point was passed with a good answer and no other. */
  predicate Passed(pc: Pc, told: set<(Pc, Answer)>) {
    (pc, Good) in told && (pc, Empty) !in told && (pc, Bad) !in told
  }

  /** The mutation is announced, under way or done. */
  predicate Announced(w: World) {
    w.pc.Executing? || w.landed || w.tx.CommitSent? || exists t :: t in w.attempts && t.to == MutationExecuting
  }

  predicate Beyond(pc: Pc) {
    || pc.Committing? || pc.CommitFailed? || pc.RecordCommit? || pc.RecordUncertain? || pc == Return(true)
  }

  predicate Stopped(pc: Pc) {
    pc.Recover? || pc.RecordFailed? || pc == Return(false) || pc.GateError? || pc.Done? || pc.Dead?
  }

  /** The capture stands before the announcement. */
  ghost predicate CaptureGates(w: World, told: set<(Pc, Answer)>) {
    && (w.pc.Begin? || w.pc.OpenJournal? || w.pc.Preflight? || w.pc.StartWork? || w.pc.Capturing? ==>
          Unasked(Capturing, told) && !Announced(w))
    && (w.pc.LinkTheBackup? || w.pc.BackupSaved? ==> Captured(told) && !Announced(w))
    && (w.stmt.backupRequired && (w.pc.Announce? || Beyond(w.pc) || Announced(w)) ==> Captured(told))
  }

  /** Where a failed capture leads. */
  ghost predicate CaptureStops(w: World, told: set<(Pc, Answer)>) {
    && ((Capturing, Bad) in told ==> Stopped(w.pc) && w.audit != Some(Approved))
    && (Preparing(w.pc) ==> w.audit.None?)
  }

  /** The existence checks of DDL stand before everything. */
  ghost predicate PreflightGates(w: World, told: set<(Pc, Answer)>) {
    && (w.pc.Begin? || w.pc.OpenJournal? || w.pc.Preflight? ==> Unasked(Preflight, told) && !Announced(w))
    && (w.stmt.category == Ddl && (Checked(w.pc) || Announced(w)) ==> Passed(Preflight, told))
  }

  /** Where a failed or empty preflight leads. */
  ghost predicate PreflightStops(w: World, told: set<(Pc, Answer)>) {
    && ((Preflight, Bad) in told ==> (w.pc.GateError? || w.pc.Done? || w.pc.Dead?) && w.audit != Some(Approved))
    && ((Preflight, Empty) in told ==> Closing(w.pc) || w.pc.Done? || w.pc.Dead?)
    && (Preparing(w.pc) ==> w.audit.None?)
  }

  predicate Checked(pc: Pc) {
    || pc.StartWork? || pc.Capturing? || pc.LinkTheBackup? || pc.BackupSaved? || pc.Announce? || Beyond(pc)
  }

  /** The statement's own answer stands before COMMIT, and a write is in a transaction by then. */
  ghost predicate StatementGates(w: World, told: set<(Pc, Answer)>) {
    && (Preparing(w.pc) || w.pc.Executing? ==> Unasked(Executing, told) && !w.landed && !w.tx.CommitSent?)
    && (Beyond(w.pc) || w.landed || w.tx.CommitSent? ==> Passed(Executing, told))
  }

  /** A good ROLLBACK leaves no transaction open. */
  ghost predicate RollbackCloses(w: World, told: set<(Pc, Answer)>) {
    && (w.pc.Begin? ==> told == {})
    && ((Recover, Good) in told ==> !w.tx.Open?)
  }

  lemma PrepareKeepsCaptureGates(w: World, answer: Answer, lost: bool, told: set<(Pc, Answer)>)
    requires CaptureGates(w, told) && Preparing(w.pc)
    ensures CaptureGates(Prepare(w, answer, lost), told + {(w.pc, answer)})
  {
  }

  lemma WorkKeepsCaptureGates(w: World, answer: Answer, lost: bool, told: set<(Pc, Answer)>)
    requires CaptureGates(w, told) && Working(w.pc)
    ensures CaptureGates(Work(w, answer), told + {(w.pc, answer)})
  {
  }

  lemma RecordKeepsCaptureGates(w: World, answer: Answer, lost: bool, told: set<(Pc, Answer)>)
    requires CaptureGates(w, told) && Recording(w.pc)
    ensures CaptureGates(Record(w, lost), told + {(w.pc, answer)})
  {
  }

  lemma GateKeepsCaptureGates(w: World, answer: Answer, lost: bool, told: set<(Pc, Answer)>)
    requires CaptureGates(w, told) && Closing(w.pc)
    ensures CaptureGates(Gate(w, answer, lost), told + {(w.pc, answer)})
  {
  }

  lemma StepKeepsCaptureGates(w: World, a: Action, told: set<(Pc, Answer)>)
    requires CaptureGates(w, told)
    ensures CaptureGates(Step(w, a), told + Told(w, a))
  {
    if a.Advance? {
      hide CaptureGates, Prepare, Work, Record, Gate;
      if Preparing(w.pc) {
        PrepareKeepsCaptureGates(w, a.answer, a.lost, told);
      } else if Working(w.pc) {
        WorkKeepsCaptureGates(w, a.answer, a.lost, told);
      } else if Recording(w.pc) {
        RecordKeepsCaptureGates(w, a.answer, a.lost, told);
      } else if Closing(w.pc) {
        GateKeepsCaptureGates(w, a.answer, a.lost, told);
      }
    }
  }

  lemma PrepareKeepsCaptureStops(w: World, answer: Answer, lost: bool, told: set<(Pc, Answer)>)
    requires CaptureStops(w, told) && Preparing(w.pc)
    ensures CaptureStops(Prepare(w, answer, lost), told + {(w.pc, answer)})
  {
  }

  lemma WorkKeepsCaptureStops(w: World, answer: Answer, lost: bool, told: set<(Pc, Answer)>)
    requires CaptureStops(w, told) && Working(w.pc)
    ensures CaptureStops(Work(w, answer), told + {(w.pc, answer)})
  {
  }

  lemma RecordKeepsCaptureStops(w: World, answer: Answer, lost: bool, told: set<(Pc, Answer)>)
    requires CaptureStops(w, told) && Recording(w.pc)
    ensures CaptureStops(Record(w, lost), told + {(w.pc, answer)})
  {
  }

  lemma GateKeepsCaptureStops(w: World, answer: Answer, lost: bool, told: set<(Pc, Answer)>)
    requires CaptureStops(w, told) && Closing(w.pc)
    ensures CaptureStops(Gate(w, answer, lost), told + {(w.pc, answer)})
  {
  }

  lemma StepKeepsCaptureStops(w: World, a: Action, told: set<(Pc, Answer)>)
    requires CaptureStops(w, told)
    ensures CaptureStops(Step(w, a), told + Told(w, a))
  {
    if a.Advance? {
      hide CaptureStops, Prepare, Work, Record, Gate;
      if Preparing(w.pc) {
        PrepareKeepsCaptureStops(w, a.answer, a.lost, told);
      } else if Working(w.pc) {
        WorkKeepsCaptureStops(w, a.answer, a.lost, told);
      } else if Recording(w.pc) {
        RecordKeepsCaptureStops(w, a.answer, a.lost, told);
      } else if Closing(w.pc) {
        GateKeepsCaptureStops(w, a.answer, a.lost, told);
      }
    }
  }

  lemma PrepareKeepsPreflightGates(w: World, answer: Answer, lost: bool, told: set<(Pc, Answer)>)
    requires PreflightGates(w, told) && Preparing(w.pc)
    ensures PreflightGates(Prepare(w, answer, lost), told + {(w.pc, answer)})
  {
  }

  lemma WorkKeepsPreflightGates(w: World, answer: Answer, lost: bool, told: set<(Pc, Answer)>)
    requires PreflightGates(w, told) && Working(w.pc)
    ensures PreflightGates(Work(w, answer), told + {(w.pc, answer)})
  {
  }

  lemma RecordKeepsPreflightGates(w: World, answer: Answer, lost: bool, told: set<(Pc, Answer)>)
    requires PreflightGates(w, told) && Recording(w.pc)
    ensures PreflightGates(Record(w, lost), told + {(w.pc, answer)})
  {
  }

  lemma GateKeepsPreflightGates(w: World, answer: Answer, lost: bool, told: set<(Pc, Answer)>)
    requires PreflightGates(w, told) && Closing(w.pc)
    ensures PreflightGates(Gate(w, answer, lost), told + {(w.pc, answer)})
  {
  }

  lemma StepKeepsPreflightGates(w: World, a: Action, told: set<(Pc, Answer)>)
    requires PreflightGates(w, told)
    ensures PreflightGates(Step(w, a), told + Told(w, a))
  {
    if a.Advance? {
      hide PreflightGates, Prepare, Work, Record, Gate;
      if Preparing(w.pc) {
        PrepareKeepsPreflightGates(w, a.answer, a.lost, told);
      } else if Working(w.pc) {
        WorkKeepsPreflightGates(w, a.answer, a.lost, told);
      } else if Recording(w.pc) {
        RecordKeepsPreflightGates(w, a.answer, a.lost, told);
      } else if Closing(w.pc) {
        GateKeepsPreflightGates(w, a.answer, a.lost, told);
      }
    }
  }

  lemma PrepareKeepsPreflightStops(w: World, answer: Answer, lost: bool, told: set<(Pc, Answer)>)
    requires PreflightStops(w, told) && Preparing(w.pc)
    ensures PreflightStops(Prepare(w, answer, lost), told + {(w.pc, answer)})
  {
  }

  lemma WorkKeepsPreflightStops(w: World, answer: Answer, lost: bool, told: set<(Pc, Answer)>)
    requires PreflightStops(w, told) && Working(w.pc)
    ensures PreflightStops(Work(w, answer), told + {(w.pc, answer)})
  {
  }

  lemma RecordKeepsPreflightStops(w: World, answer: Answer, lost: bool, told: set<(Pc, Answer)>)
    requires PreflightStops(w, told) && Recording(w.pc)
    ensures PreflightStops(Record(w, lost), told + {(w.pc, answer)})
  {
  }

  lemma GateKeepsPreflightStops(w: World, answer: Answer, lost: bool, told: set<(Pc, Answer)>)
    requires PreflightStops(w, told) && Closing(w.pc)
    ensures PreflightStops(Gate(w, answer, lost), told + {(w.pc, answer)})
  {
  }

  lemma StepKeepsPreflightStops(w: World, a: Action, told: set<(Pc, Answer)>)
    requires PreflightStops(w, told)
    ensures PreflightStops(Step(w, a), told + Told(w, a))
  {
    if a.Advance? {
      hide PreflightStops, Prepare, Work, Record, Gate;
      if Preparing(w.pc) {
        PrepareKeepsPreflightStops(w, a.answer, a.lost, told);
      } else if Working(w.pc) {
        WorkKeepsPreflightStops(w, a.answer, a.lost, told);
      } else if Recording(w.pc) {
        RecordKeepsPreflightStops(w, a.answer, a.lost, told);
      } else if Closing(w.pc) {
        GateKeepsPreflightStops(w, a.answer, a.lost, told);
      }
    }
  }

  lemma PrepareKeepsStatementGates(w: World, answer: Answer, lost: bool, told: set<(Pc, Answer)>)
    requires StatementGates(w, told) && Preparing(w.pc) && NothingFalse(w)
    ensures StatementGates(Prepare(w, answer, lost), told + {(w.pc, answer)})
  {
  }

  lemma WorkKeepsStatementGates(w: World, answer: Answer, lost: bool, told: set<(Pc, Answer)>)
    requires StatementGates(w, told) && Working(w.pc) && NothingFalse(w)
    ensures StatementGates(Work(w, answer), told + {(w.pc, answer)})
  {
  }

  lemma RecordKeepsStatementGates(w: World, answer: Answer, lost: bool, told: set<(Pc, Answer)>)
    requires StatementGates(w, told) && Recording(w.pc) && NothingFalse(w)
    ensures StatementGates(Record(w, lost), told + {(w.pc, answer)})
  {
  }

  lemma GateKeepsStatementGates(w: World, answer: Answer, lost: bool, told: set<(Pc, Answer)>)
    requires StatementGates(w, told) && Closing(w.pc) && NothingFalse(w)
    ensures StatementGates(Gate(w, answer, lost), told + {(w.pc, answer)})
  {
  }

  lemma StepKeepsStatementGates(w: World, a: Action, told: set<(Pc, Answer)>)
    requires StatementGates(w, told) && NothingFalse(w)
    ensures StatementGates(Step(w, a), told + Told(w, a))
  {
    if a.Advance? {
      hide StatementGates, Prepare, Work, Record, Gate;
      if Preparing(w.pc) {
        PrepareKeepsStatementGates(w, a.answer, a.lost, told);
      } else if Working(w.pc) {
        WorkKeepsStatementGates(w, a.answer, a.lost, told);
      } else if Recording(w.pc) {
        RecordKeepsStatementGates(w, a.answer, a.lost, told);
      } else if Closing(w.pc) {
        GateKeepsStatementGates(w, a.answer, a.lost, told);
      }
    }
  }

  lemma PrepareKeepsRollbackCloses(w: World, answer: Answer, lost: bool, told: set<(Pc, Answer)>)
    requires RollbackCloses(w, told) && Preparing(w.pc)
    ensures RollbackCloses(Prepare(w, answer, lost), told + {(w.pc, answer)})
  {
  }

  lemma WorkKeepsRollbackCloses(w: World, answer: Answer, lost: bool, told: set<(Pc, Answer)>)
    requires RollbackCloses(w, told) && Working(w.pc)
    ensures RollbackCloses(Work(w, answer), told + {(w.pc, answer)})
  {
  }

  lemma RecordKeepsRollbackCloses(w: World, answer: Answer, lost: bool, told: set<(Pc, Answer)>)
    requires RollbackCloses(w, told) && Recording(w.pc)
    ensures RollbackCloses(Record(w, lost), told + {(w.pc, answer)})
  {
  }

  lemma GateKeepsRollbackCloses(w: World, answer: Answer, lost: bool, told: set<(Pc, Answer)>)
    requires RollbackCloses(w, told) && Closing(w.pc)
    ensures RollbackCloses(Gate(w, answer, lost), told + {(w.pc, answer)})
  {
  }

  lemma StepKeepsRollbackCloses(w: World, a: Action, told: set<(Pc, Answer)>)
    requires RollbackCloses(w, told)
    ensures RollbackCloses(Step(w, a), told + Told(w, a))
  {
    if a.Advance? {
      hide RollbackCloses, Prepare, Work, Record, Gate;
      if Preparing(w.pc) {
        PrepareKeepsRollbackCloses(w, a.answer, a.lost, told);
      } else if Working(w.pc) {
        WorkKeepsRollbackCloses(w, a.answer, a.lost, told);
      } else if Recording(w.pc) {
        RecordKeepsRollbackCloses(w, a.answer, a.lost, told);
      } else if Closing(w.pc) {
        GateKeepsRollbackCloses(w, a.answer, a.lost, told);
      }
    }
  }

  /** Success is reported for what took effect, or for the DDL statement that had nothing to do. */
  ghost predicate SuccessIsReal(w: World, told: set<(Pc, Answer)>) {
    && (w.pc.RecordCommit? || w.pc == Return(true) || (w.stmt.category != Write && Beyond(w.pc)) ==> w.landed)
    && (w.pc.GateOk? || w.pc.Finalize? || w.pc.LinkTheAudit? || w.audit == Some(Approved) ==>
          w.landed || (Preflight, Empty) in told)
  }

  lemma PrepareKeepsSuccessIsReal(w: World, answer: Answer, lost: bool, told: set<(Pc, Answer)>)
    requires SuccessIsReal(w, told) && Preparing(w.pc)
    ensures SuccessIsReal(Prepare(w, answer, lost), told + {(w.pc, answer)})
  {
  }

  lemma WorkKeepsSuccessIsReal(w: World, answer: Answer, lost: bool, told: set<(Pc, Answer)>)
    requires SuccessIsReal(w, told) && Working(w.pc)
    ensures SuccessIsReal(Work(w, answer), told + {(w.pc, answer)})
  {
  }

  lemma RecordKeepsSuccessIsReal(w: World, answer: Answer, lost: bool, told: set<(Pc, Answer)>)
    requires SuccessIsReal(w, told) && Recording(w.pc)
    ensures SuccessIsReal(Record(w, lost), told + {(w.pc, answer)})
  {
  }

  lemma GateKeepsSuccessIsReal(w: World, answer: Answer, lost: bool, told: set<(Pc, Answer)>)
    requires SuccessIsReal(w, told) && Closing(w.pc)
    ensures SuccessIsReal(Gate(w, answer, lost), told + {(w.pc, answer)})
  {
  }

  lemma StepKeepsSuccessIsReal(w: World, a: Action, told: set<(Pc, Answer)>)
    requires SuccessIsReal(w, told)
    ensures SuccessIsReal(Step(w, a), told + Told(w, a))
  {
    if a.Advance? {
      hide SuccessIsReal, Prepare, Work, Record, Gate;
      if Preparing(w.pc) {
        PrepareKeepsSuccessIsReal(w, a.answer, a.lost, told);
      } else if Working(w.pc) {
        WorkKeepsSuccessIsReal(w, a.answer, a.lost, told);
      } else if Recording(w.pc) {
        RecordKeepsSuccessIsReal(w, a.answer, a.lost, told);
      } else if Closing(w.pc) {
        GateKeepsSuccessIsReal(w, a.answer, a.lost, told);
      }
    }
  }

  ghost predicate AllGates(w: World, told: set<(Pc, Answer)>) {
    && CaptureGates(w, told) && CaptureStops(w, told) && PreflightGates(w, told) && PreflightStops(w, told)
    && RollbackCloses(w, told) && SuccessIsReal(w, told)
  }

  /** All of it, along every run. */
  lemma {:induction false} GatesForever(w: World, actions: seq<Action>, told: set<(Pc, Answer)>)
    requires AllGates(w, told)
    ensures var next, all := Run(w, actions), told + Answered(w, actions);
            AllGates(next, all)
    decreases |actions|
  {
    hide CaptureGates, CaptureStops, PreflightGates, PreflightStops, RollbackCloses, SuccessIsReal, Step, Told;
    if actions == [] {
      assert told + Answered(w, actions) == told;
    } else {
      var a := actions[0];
      StepKeepsCaptureGates(w, a, told);
      StepKeepsCaptureStops(w, a, told);
      StepKeepsPreflightGates(w, a, told);
      StepKeepsPreflightStops(w, a, told);
      StepKeepsRollbackCloses(w, a, told);
      StepKeepsSuccessIsReal(w, a, told);
      GatesForever(Step(w, a), actions[1..], told + Told(w, a));
      assert told + Answered(w, actions) == told + Told(w, a) + Answered(Step(w, a), actions[1..]);
    }
  }

  lemma {:induction false} StatementGatesForever(w: World, actions: seq<Action>, told: set<(Pc, Answer)>)
    requires NothingFalse(w) && StatementGates(w, told)
    ensures StatementGates(Run(w, actions), told + Answered(w, actions))
    decreases |actions|
  {
    hide NothingFalse, StatementGates, Step, Told;
    if actions == [] {
      assert told + Answered(w, actions) == told;
    } else {
      var a := actions[0];
      StepKeepsNothingFalse(w, a);
      StepKeepsStatementGates(w, a, told);
      StatementGatesForever(Step(w, a), actions[1..], told + Told(w, a));
      assert told + Answered(w, actions) == told + Told(w, a) + Answered(Step(w, a), actions[1..]);
    }
  }

  /** No statement that needs a backup is announced, and none lands, unless its capture was answered well; no DDL
      unless its preflight was; and no write lands unless the server took the statement itself. */
  lemma NothingRunsUnchecked(stmt: Statement, actions: seq<Action>)
    ensures var w, told := Run(Start(stmt), actions), Answered(Start(stmt), actions);
            && (stmt.backupRequired && Announced(w) ==> Captured(told))
            && (stmt.category == Ddl && Announced(w) ==> Passed(Preflight, told))
            && (stmt.category == Write && stmt.backupRequired && w.landed ==> Passed(Executing, told))
  {
    GatesForever(Start(stmt), actions, {});
    StmtIsFixed(Start(stmt), actions);
    assert {} + Answered(Start(stmt), actions) == Answered(Start(stmt), actions);
    if stmt.category == Write && stmt.backupRequired {
      StatementGatesForever(Start(stmt), actions, {});
    }
  }

  lemma {:induction false} AnsweredConcat(w: World, actions: seq<Action>, later: seq<Action>)
    ensures Run(w, actions + later) == Run(Run(w, actions), later)
    ensures Answered(w, actions + later) == Answered(w, actions) + Answered(Run(w, actions), later)
    decreases |actions|
  {
    hide Step, Told;
    if actions == [] {
      assert actions + later == later;
    } else {
      assert (actions + later)[1..] == actions[1..] + later;
      AnsweredConcat(Step(w, actions[0]), actions[1..], later);
    }
  }

  /** After a failed capture no continuation announces or lands the mutation, or reports success. */
  lemma FailedCaptureStops(stmt: Statement, actions: seq<Action>, later: seq<Action>)
    requires stmt.backupRequired && (Capturing, Bad) in Answered(Start(stmt), actions)
    ensures var w := Run(Run(Start(stmt), actions), later);
            !Announced(w) && !w.landed && w.audit != Some(Approved)
  {
    AnsweredConcat(Start(stmt), actions, later);
    NothingRunsUnchecked(stmt, actions + later);
    GatesForever(Start(stmt), actions + later, {});
    assert {} + Answered(Start(stmt), actions + later) == Answered(Start(stmt), actions + later);
  }

  /** The same for a failed preflight; after one that found nothing to do, nothing lands either. */
  lemma FailedPreflightStops(stmt: Statement, actions: seq<Action>, later: seq<Action>)
    requires stmt.category == Ddl
    ensures var told, w := Answered(Start(stmt), actions), Run(Run(Start(stmt), actions), later);
            && ((Preflight, Bad) in told || (Preflight, Empty) in told ==> !Announced(w) && !w.landed)
            && ((Preflight, Bad) in told ==> w.audit != Some(Approved))
  {
    AnsweredConcat(Start(stmt), actions, later);
    NothingRunsUnchecked(stmt, actions + later);
    GatesForever(Start(stmt), actions + later, {});
    assert {} + Answered(Start(stmt), actions + later) == Answered(Start(stmt), actions + later);
  }

  /** A durable approved audit row means that the mutation landed, or that the preflight found nothing to do; DDL and
      admin statements have landed once they go on to COMMIT, whatever comes of that; and after a good ROLLBACK no
      transaction stays open. */
  lemma ApprovalIsTrue(stmt: Statement, actions: seq<Action>)
    ensures var w, told := Run(Start(stmt), actions), Answered(Start(stmt), actions);
            && (w.audit == Some(Approved) ==> w.landed || (Preflight, Empty) in told)
            && (stmt.category != Write && Beyond(w.pc) ==> w.landed)
            && ((Recover, Good) in told ==> !w.tx.Open?)
  {
    GatesForever(Start(stmt), actions, {});
    StmtIsFixed(Start(stmt), actions);
    assert {} + Answered(Start(stmt), actions) == Answered(Start(stmt), actions);
  }

  /** Where the backup is linked, and the row is moved on for it, as long as no journal write is lost. */
  ghost predicate Linked(w: World, told: set<(Pc, Answer)>) {
    var saved := Attempt(BackupCapturing, BackupDurable);
    var past := w.pc.Announce? || w.pc.Executing? || Beyond(w.pc) || w.landed || w.tx.CommitSent?;
    && (w.pc.Begin? || w.pc.OpenJournal? ==> w.journal.None?)
    && (w.pc.Preflight? || Checked(w.pc) || past ==> w.journal.Some?)
    && (w.journal.Some? && w.journal.value.backupId.Some? ==> (Capturing, Good) in told)
    && ((w.pc.BackupSaved? || past) && (Capturing, Good) in told ==> w.journal.Some? && w.journal.value.backupId.Some?)
    && (saved in w.attempts ==> (Capturing, Good) in told)
    && (past && (Capturing, Good) in told ==> saved in w.attempts)
    && (w.pc.BackupSaved? || w.pc.LinkTheBackup? ==> (Capturing, Good) in told)
  }

  lemma PrepareKeepsLinked(w: World, answer: Answer, lost: bool, told: set<(Pc, Answer)>)
    requires Linked(w, told) && Preparing(w.pc) && !lost
    requires InStep(w) && StatementGates(w, told) && CaptureGates(w, told)
    ensures Linked(Prepare(w, answer, lost), told + {(w.pc, answer)})
  {
  }

  lemma WorkKeepsLinked(w: World, answer: Answer, lost: bool, told: set<(Pc, Answer)>)
    requires Linked(w, told) && Working(w.pc) && !lost
    requires InStep(w) && StatementGates(w, told) && CaptureGates(w, told)
    ensures Linked(Work(w, answer), told + {(w.pc, answer)})
  {
  }

  lemma RecordKeepsLinked(w: World, answer: Answer, lost: bool, told: set<(Pc, Answer)>)
    requires Linked(w, told) && Recording(w.pc) && !lost
    requires InStep(w) && StatementGates(w, told) && CaptureGates(w, told)
    ensures Linked(Record(w, lost), told + {(w.pc, answer)})
  {
  }

  lemma GateKeepsLinked(w: World, answer: Answer, lost: bool, told: set<(Pc, Answer)>)
    requires Linked(w, told) && Closing(w.pc) && !lost
    requires InStep(w) && StatementGates(w, told) && CaptureGates(w, told)
    ensures Linked(Gate(w, answer, lost), told + {(w.pc, answer)})
  {
  }

  lemma StepKeepsLinked(w: World, a: Action, told: set<(Pc, Answer)>)
    requires Linked(w, told) && !Loses(w, a, Everywhere)
    requires InStep(w) && StatementGates(w, told) && CaptureGates(w, told)
    ensures Linked(Step(w, a), told + Told(w, a))
  {
    if a.Advance? {
      hide Linked, Prepare, Work, Record, Gate, InStep, StatementGates, CaptureGates;
      if Preparing(w.pc) {
        PrepareKeepsLinked(w, a.answer, a.lost, told);
      } else if Working(w.pc) {
        WorkKeepsLinked(w, a.answer, a.lost, told);
      } else if Recording(w.pc) {
        RecordKeepsLinked(w, a.answer, a.lost, told);
      } else if Closing(w.pc) {
        GateKeepsLinked(w, a.answer, a.lost, told);
      }
    }
  }

  /** How the row of a write is closed, as long as no journal write is lost. */
  ghost predicate Closed(w: World, told: set<(Pc, Answer)>) {
    && w.stmt.category == Write
    && (w.pc.Begin? || w.pc.OpenJournal? ==> w.journal.None?)
    && (!w.pc.Begin? && !w.pc.OpenJournal? && w.journal.None? ==> w.pc.GateError? || w.pc.Done? || w.pc.Dead?)
    && (w.journal.None? ==> w.audit != Some(Approved))
    && (w.pc.LinkTheAudit? ==> w.journal.Some? && w.journal.value.state == AuditFinalized)
    && (w.pc.Done? && w.audit == Some(Approved) ==>
          w.journal.Some? && w.journal.value.state == AuditFinalized && w.journal.value.auditId.Some?)
    && (!w.pc.Finalize? && !w.pc.LinkTheAudit? && !w.pc.Done? && !w.pc.Dead? ==> w.audit.None?)
  }

  lemma PrepareKeepsClosed(w: World, answer: Answer, lost: bool, told: set<(Pc, Answer)>)
    requires Closed(w, told) && Preparing(w.pc) && !lost && InStep(w) && w.stmt.backupRequired
    ensures Closed(Prepare(w, answer, lost), told + {(w.pc, answer)})
  {
  }

  lemma WorkKeepsClosed(w: World, answer: Answer, lost: bool, told: set<(Pc, Answer)>)
    requires Closed(w, told) && Working(w.pc) && !lost && InStep(w) && w.stmt.backupRequired
    ensures Closed(Work(w, answer), told + {(w.pc, answer)})
  {
  }

  lemma RecordKeepsClosed(w: World, answer: Answer, lost: bool, told: set<(Pc, Answer)>)
    requires Closed(w, told) && Recording(w.pc) && !lost && InStep(w) && w.stmt.backupRequired
    ensures Closed(Record(w, lost), told + {(w.pc, answer)})
  {
  }

  lemma GateKeepsClosed(w: World, answer: Answer, lost: bool, told: set<(Pc, Answer)>)
    requires Closed(w, told) && Closing(w.pc) && !lost && InStep(w) && w.stmt.backupRequired
    ensures Closed(Gate(w, answer, lost), told + {(w.pc, answer)})
  {
  }

  lemma StepKeepsClosed(w: World, a: Action, told: set<(Pc, Answer)>)
    requires Closed(w, told) && !Loses(w, a, Everywhere) && InStep(w) && w.stmt.backupRequired
    ensures Closed(Step(w, a), told + Told(w, a))
  {
    if a.Advance? {
      hide Closed, Prepare, Work, Record, Gate, InStep;
      if Preparing(w.pc) {
        PrepareKeepsClosed(w, a.answer, a.lost, told);
      } else if Working(w.pc) {
        WorkKeepsClosed(w, a.answer, a.lost, told);
      } else if Recording(w.pc) {
        RecordKeepsClosed(w, a.answer, a.lost, told);
      } else if Closing(w.pc) {
        GateKeepsClosed(w, a.answer, a.lost, told);
      }
    }
  }

  lemma {:induction false} LinkedForever(w: World, actions: seq<Action>, told: set<(Pc, Answer)>)
    requires Linked(w, told) && Closed(w, told) && InStep(w) && NothingFalse(w)
    requires StatementGates(w, told) && CaptureGates(w, told) && WritesLandAt(w, actions, Everywhere)
    ensures var next, all := Run(w, actions), told + Answered(w, actions);
            Linked(next, all) && Closed(next, all)
    decreases |actions|
  {
    BackupIsRequired(w);
    hide Linked, Closed, InStep, NothingFalse, StatementGates, CaptureGates, Step, Told;
    if actions == [] {
      assert told + Answered(w, actions) == told;
    } else {
      var a := actions[0];
      StepKeepsInStep(w, a);
      StepKeepsNothingFalse(w, a);
      StepKeepsStatementGates(w, a, told);
      StepKeepsCaptureGates(w, a, told);
      StepKeepsLinked(w, a, told);
      StepKeepsClosed(w, a, told);
      LinkedForever(Step(w, a), actions[1..], told + Told(w, a));
      assert told + Answered(w, actions) == told + Told(w, a) + Answered(Step(w, a), actions[1..]);
    }
  }

  lemma BackupIsRequired(w: World)
    requires NothingFalse(w)
    ensures w.stmt.backupRequired
  {
  }

  /** When no journal write is lost, a landed write has a backup linked to its row, and its row was moved on for it,
      exactly when the capture found rows; and one that is done and approved is finalized and linked to its audit
      row. */
  lemma BackupIsLinkedIff(stmt: Statement, actions: seq<Action>)
    requires stmt.category == Write && stmt.backupRequired && WritesLandAt(Start(stmt), actions, Everywhere)
    ensures var w, told := Run(Start(stmt), actions), Answered(Start(stmt), actions);
            && (w.landed ==>
                  && w.journal.Some?
                  && (w.journal.value.backupId.Some? <==> (Capturing, Good) in told)
                  && (Attempt(BackupCapturing, BackupDurable) in w.attempts <==> (Capturing, Good) in told))
            && (w.pc.Done? && w.audit == Some(Approved) ==>
                  w.journal.Some? && w.journal.value.state == AuditFinalized && w.journal.value.auditId.Some?)
  {
    LinkedForever(Start(stmt), actions, {});
    StmtIsFixed(Start(stmt), actions);
    assert {} + Answered(Start(stmt), actions) == Answered(Start(stmt), actions);
  }

  // ----- What an error means -----

  /** Nothing has landed and nothing can. */
  predicate Spent(w: World) {
    (ErrorReturned(w.pc) || w.pc.Done? || w.pc.Dead?) && !w.landed && !w.tx.CommitSent?
  }

  /** An error that is neither a deadline nor a failed COMMIT. */
  ghost predicate PlainErrorsSpent(w: World) {
    NothingFalse(w) && (ErrorReturned(w.pc) && !w.expired && !w.commitFailed ==> Spent(w))
                    && (w.pc.CommitFailed? || w.pc.RecordUncertain? ==> w.commitFailed)
  }

  lemma PrepareKeepsPlainErrorsSpent(w: World, answer: Answer, lost: bool)
    requires PlainErrorsSpent(w) && Preparing(w.pc)
    ensures PlainErrorsSpent(Prepare(w, answer, lost))
  {
  }

  lemma WorkKeepsPlainErrorsSpent(w: World, answer: Answer)
    requires PlainErrorsSpent(w) && Working(w.pc)
    ensures PlainErrorsSpent(Work(w, answer))
  {
  }

  lemma RecordKeepsPlainErrorsSpent(w: World, lost: bool)
    requires PlainErrorsSpent(w) && Recording(w.pc)
    ensures PlainErrorsSpent(Record(w, lost))
  {
  }

  lemma GateKeepsPlainErrorsSpent(w: World, answer: Answer, lost: bool)
    requires PlainErrorsSpent(w) && Closing(w.pc)
    ensures PlainErrorsSpent(Gate(w, answer, lost))
  {
  }

  lemma StepKeepsPlainErrorsSpent(w: World, a: Action)
    requires PlainErrorsSpent(w)
    ensures PlainErrorsSpent(Step(w, a))
  {
    if !a.Advance? {
      StepKeepsNothingFalse(w, a);
      hide NothingFalse;
    } else {
      hide Spent, PlainErrorsSpent, Prepare, Work, Record, Gate;
      if Preparing(w.pc) {
        PrepareKeepsPlainErrorsSpent(w, a.answer, a.lost);
      } else if Working(w.pc) {
        WorkKeepsPlainErrorsSpent(w, a.answer);
      } else if Recording(w.pc) {
        RecordKeepsPlainErrorsSpent(w, a.lost);
      } else if Closing(w.pc) {
        GateKeepsPlainErrorsSpent(w, a.answer, a.lost);
      }
    }
  }

  lemma {:induction false} PlainErrorsSpentForever(w: World, actions: seq<Action>)
    requires PlainErrorsSpent(w)
    ensures PlainErrorsSpent(Run(w, actions))
    decreases |actions|
  {
    hide PlainErrorsSpent, Step;
    if actions != [] {
      StepKeepsPlainErrorsSpent(w, actions[0]);
      PlainErrorsSpentForever(Step(w, actions[0]), actions[1..]);
    }
  }

  lemma StepStaysSpent(w: World, a: Action)
    requires Spent(w)
    ensures Spent(Step(w, a))
  {
  }

  lemma {:induction false} SpentForever(w: World, actions: seq<Action>)
    requires Spent(w)
    ensures !Run(w, actions).landed
    decreases |actions|
  {
    if actions != [] {
      hide Step;
      StepStaysSpent(w, actions[0]);
      SpentForever(Step(w, actions[0]), actions[1..]);
    }
  }

  /** An error of this kind, on a write, rules out that the mutation has landed or ever will. */
  ghost predicate ErrorIsProof(expired: bool, commitFailed: bool) {
    forall actions, later :: UnlandedAfter(actions, later, expired, commitFailed)
  }

  ghost predicate UnlandedAfter(actions: seq<Action>, later: seq<Action>, expired: bool, commitFailed: bool) {
    var w := Run(Start(Statement(Write, true)), actions);
    ErrorReturned(w.pc) && w.expired == expired && w.commitFailed == commitFailed ==> !Run(w, later).landed
  }

  /** An error from the executor means that a write did not take effect if and only if it is neither the
      expired deadline nor an error in answer to COMMIT. */
  lemma ErrorIsProofIff(expired: bool, commitFailed: bool)
    ensures ErrorIsProof(expired, commitFailed) <==> !expired && !commitFailed
  {
    if !expired && !commitFailed {
      forall actions, later ensures UnlandedAfter(actions, later, expired, commitFailed) {
        var start := Start(Statement(Write, true));
        PlainErrorsSpentForever(start, actions);
        var w := Run(start, actions);
        if ErrorReturned(w.pc) && !w.expired && !w.commitFailed {
          SpentForever(w, later);
        }
      }
    } else {
      var actions := ReachLandedError(expired, commitFailed);
      hide Run;
      RunNothing(Run(Start(Statement(Write, true)), actions));
      assert !UnlandedAfter(actions, [], expired, commitFailed);
    }
  }

  lemma RunNothing(w: World)
    ensures Run(w, []) == w
  {
  }

  // ----- What a failed row means for DDL -----

  predicate AfterRecording(pc: Pc) {
    pc == Return(false) || Closing(pc) || pc.Done? || pc.Dead?
  }

  /** At most one attempt is ever made to record failure. */
  ghost predicate OneFailure(w: World) {
    && (forall t, u :: t in w.attempts && u in w.attempts && t.to == Failed && u.to == Failed ==> t == u)
    && (forall t :: t in w.attempts && t.to == Failed ==> AfterRecording(w.pc))
  }

  /** Nothing lands while the row says that the mutation has not been announced, and none of a row that
      failed from there. */
  ghost predicate UnannouncedIsUnlanded(w: World) {
    && InStep(w)
    && (Preparing(w.pc) ==> !w.landed && !w.tx.CommitSent?)
    && (w.journal.Some? ==>
          var row := w.journal.value.state;
          && (row.Planned? || row.BackupCapturing? || row.BackupDurable? ==> !w.landed && !w.tx.CommitSent?)
          && (row.Failed? ==> AfterRecording(w.pc))
          && (row.Failed? && Attempt(MutationExecuting, Failed) !in w.attempts ==> !w.landed && !w.tx.CommitSent?))
  }

  lemma PrepareKeepsOneFailure(w: World, answer: Answer, lost: bool)
    requires OneFailure(w) && Preparing(w.pc)
    ensures OneFailure(Prepare(w, answer, lost))
  {
    NoFailureYet(w);
    PrepareTries(w, answer, lost);
    hide Prepare;
  }

  lemma NoFailureYet(w: World)
    requires OneFailure(w) && Preparing(w.pc)
    ensures forall t :: t in w.attempts ==> t.to != Failed
  {
  }

  /** The preparation tries to record failure at most once, at the preflight. */
  lemma PrepareTries(w: World, answer: Answer, lost: bool)
    requires Preparing(w.pc)
    ensures forall t :: t in Prepare(w, answer, lost).attempts && t.to == Failed ==>
              t in w.attempts
              || (w.journal.Some? && t == Attempt(w.journal.value.state, Failed)
                  && AfterRecording(Prepare(w, answer, lost).pc))
  {
  }

  lemma WorkKeepsOneFailure(w: World, answer: Answer)
    requires OneFailure(w) && Working(w.pc)
    ensures OneFailure(Work(w, answer))
  {
  }

  lemma RecordKeepsOneFailure(w: World, lost: bool)
    requires OneFailure(w) && Recording(w.pc)
    ensures OneFailure(Record(w, lost))
  {
  }

  lemma GateKeepsOneFailure(w: World, answer: Answer, lost: bool)
    requires OneFailure(w) && Closing(w.pc)
    ensures OneFailure(Gate(w, answer, lost))
  {
  }

  lemma StepKeepsOneFailure(w: World, a: Action)
    requires OneFailure(w)
    ensures OneFailure(Step(w, a))
  {
    if a.Advance? {
      hide OneFailure, Prepare, Work, Record, Gate;
      if Preparing(w.pc) {
        PrepareKeepsOneFailure(w, a.answer, a.lost);
      } else if Working(w.pc) {
        WorkKeepsOneFailure(w, a.answer);
      } else if Recording(w.pc) {
        RecordKeepsOneFailure(w, a.lost);
      } else if Closing(w.pc) {
        GateKeepsOneFailure(w, a.answer, a.lost);
      }
    }
  }

  lemma PrepareKeepsUnannounced(w: World, answer: Answer, lost: bool)
    requires UnannouncedIsUnlanded(w) && !(lost && Key(w.pc)) && Preparing(w.pc)
    ensures UnannouncedIsUnlanded(Prepare(w, answer, lost))
  {
  }

  lemma WorkKeepsUnannounced(w: World, answer: Answer)
    requires UnannouncedIsUnlanded(w) && Working(w.pc)
    ensures UnannouncedIsUnlanded(Work(w, answer))
  {
  }

  lemma RecordKeepsUnannounced(w: World, lost: bool)
    requires UnannouncedIsUnlanded(w) && !(lost && Key(w.pc)) && Recording(w.pc)
    ensures UnannouncedIsUnlanded(Record(w, lost))
  {
  }

  lemma GateKeepsUnannounced(w: World, answer: Answer, lost: bool)
    requires UnannouncedIsUnlanded(w) && Closing(w.pc)
    ensures UnannouncedIsUnlanded(Gate(w, answer, lost))
  {
  }

  lemma StepKeepsUnannounced(w: World, a: Action)
    requires UnannouncedIsUnlanded(w) && !Loses(w, a, Key)
    ensures UnannouncedIsUnlanded(Step(w, a))
  {
    if a.Advance? {
      hide UnannouncedIsUnlanded, Prepare, Work, Record, Gate;
      if Preparing(w.pc) {
        PrepareKeepsUnannounced(w, a.answer, a.lost);
      } else if Working(w.pc) {
        WorkKeepsUnannounced(w, a.answer);
      } else if Recording(w.pc) {
        RecordKeepsUnannounced(w, a.lost);
      } else if Closing(w.pc) {
        GateKeepsUnannounced(w, a.answer, a.lost);
      }
    }
  }

  lemma {:induction false} FailuresFitForever(w: World, actions: seq<Action>)
    requires OneFailure(w) && UnannouncedIsUnlanded(w) && WritesLandAt(w, actions, Key)
    ensures OneFailure(Run(w, actions)) && UnannouncedIsUnlanded(Run(w, actions))
    decreases |actions|
  {
    hide OneFailure, UnannouncedIsUnlanded, Step;
    if actions != [] {
      StepKeepsOneFailure(w, actions[0]);
      StepKeepsUnannounced(w, actions[0]);
      FailuresFitForever(Step(w, actions[0]), actions[1..]);
    }
  }

  ghost predicate FailedRowIsRight(from: JournalState, stmt: Statement, actions: seq<Action>) {
    var w := Run(Start(stmt), actions);
    (&& WritesLandAt(Start(stmt), actions, Key) && w.journal.Some? && w.journal.value.state == Failed
     && Attempt(from, Failed) in w.attempts)
    ==> !w.landed
  }

  /** Whatever the statement: a row that failed from the state `from` is right about the server in every run
      if and only if the mutation had not been announced. */
  lemma FailedRowIsRightIff(from: JournalState)
    ensures (forall stmt, actions :: FailedRowIsRight(from, stmt, actions)) <==> from != MutationExecuting
  {
    if from == MutationExecuting {
      var actions := DdlCanLandAndReadFailed();
      assert !FailedRowIsRight(from, Statement(Ddl, true), actions);
    } else {
      forall stmt, actions ensures FailedRowIsRight(from, stmt, actions) {
        if WritesLandAt(Start(stmt), actions, Key) {
          FailuresFitForever(Start(stmt), actions);
        }
      }
    }
  }

  // ----- Where the statements above stop -----

  lemma {:induction false} RunThen(w: World, actions: seq<Action>, reliable: Pc -> bool, a: Action)
    ensures Run(w, actions + [a]) == Step(Run(w, actions), a)
    ensures WritesLandAt(w, actions + [a], reliable)
       <==> WritesLandAt(w, actions, reliable) && !Loses(Run(w, actions), a, reliable)
    decreases |actions|
  {
    hide Step;
    if actions == [] {
      assert Run(w, [a]) == Run(Step(w, a), []);
      assert WritesLandAt(Step(w, a), [], reliable);
    } else {
      assert (actions + [a])[1..] == actions[1..] + [a];
      RunThen(Step(w, actions[0]), actions[1..], reliable, a);
    }
  }

  /** Extends a run that has come to `w` by one action that leads on to `next`. */
  lemma Then(start: World, actions: seq<Action>, reliable: Pc -> bool, w: World, a: Action, next: World)
    returns (more: seq<Action>)
    requires Run(start, actions) == w && Step(w, a) == next
    requires WritesLandAt(start, actions, reliable) && !Loses(w, a, reliable)
    ensures more == actions + [a] && Run(start, more) == next && WritesLandAt(start, more, reliable)
  {
    RunThen(start, actions, reliable, a);
    more := actions + [a];
  }

  const GOOD := Advance(Good, false)
  const LOST := Advance(Good, true)
  const FRESH := Row(Planned, None, None, None)

  function AWrite(pc: Pc, tx: Tx, row: JournalState, attempts: set<Attempt>): World {
    World(Statement(Write, true), pc, tx, false, false, false, Some(FRESH.(state := row)), None, attempts)
  }

  /** A write up to the announcement. `lost` loses its first journal transition. */
  lemma ReachAnnounce(lost: bool, reliable: Pc -> bool) returns (actions: seq<Action>)
    requires lost ==> !reliable(StartWork)
    ensures WritesLandAt(Start(Statement(Write, true)), actions, reliable)
    ensures Run(Start(Statement(Write, true)), actions) ==
            if lost then AWrite(Announce, Open, Planned, {})
            else AWrite(Announce, Open, BackupCapturing, {Attempt(Planned, BackupCapturing)})
  {
    var s := Start(Statement(Write, true));
    var w1 := s.(tx := Open, pc := OpenJournal);
    actions := Then(s, [], reliable, s, GOOD, w1);
    var w2 := AWrite(StartWork, Open, Planned, {});
    actions := Then(s, actions, reliable, w1, GOOD, w2);
    var w3 := if lost then w2.(pc := Capturing)
              else AWrite(Capturing, Open, BackupCapturing, {Attempt(Planned, BackupCapturing)});
    actions := Then(s, actions, reliable, w2, Advance(Good, lost), w3);
    actions := Then(s, actions, reliable, w3, Advance(Empty, false), w3.(pc := Announce));
  }

  /** The same write with its COMMIT in effect but not answered yet. `lost` loses the announcement;
      `expired` lets the deadline fire meanwhile. */
  lemma ReachSilentCommit(lost: bool, expired: bool, reliable: Pc -> bool) returns (actions: seq<Action>, w: World)
    requires lost ==> !reliable(Announce)
    ensures WritesLandAt(Start(Statement(Write, true)), actions, reliable)
    ensures Run(Start(Statement(Write, true)), actions) == w
    ensures w.stmt == Statement(Write, true) && w.pc == Committing && w.tx == Ended && w.landed
    ensures w.expired == expired && !w.commitFailed && w.audit == None
    ensures w.journal == Some(FRESH.(state := if lost then BackupCapturing else MutationExecuting))
  {
    hide Run, WritesLandAt;
    var s := Start(Statement(Write, true));
    actions := ReachAnnounce(false, reliable);
    var t := {Attempt(Planned, BackupCapturing)};
    var w0 := AWrite(Announce, Open, BackupCapturing, t);
    var w1 := if lost then w0.(pc := Executing)
              else AWrite(Executing, Open, MutationExecuting, t + {Attempt(BackupCapturing, MutationExecuting)});
    actions := Then(s, actions, reliable, w0, Advance(Good, lost), w1);
    var w2 := w1.(tx := CommitSent, pc := Committing);
    actions := Then(s, actions, reliable, w1, GOOD, w2);
    var w3 := w2.(expired := expired);
    if expired {
      actions := Then(s, actions, reliable, w2, Deadline, w3);
    }
    w := w3.(tx := Ended, landed := true);
    actions := Then(s, actions, reliable, w3, CommitLands, w);
  }

  /** A write with rows to save, up to the announcement. */
  lemma ReachSaved() returns (actions: seq<Action>, w: World)
    ensures WritesLandAt(Start(Statement(Write, true)), actions, Everywhere)
    ensures Quiet(actions) && Run(Start(Statement(Write, true)), actions) == w
    ensures w.pc == Announce && w.tx == Open && !w.landed && !w.expired && w.audit == None
    ensures w.stmt == Statement(Write, true) && w.journal == Some(Row(BackupDurable, None, Some(1), None))
  {
    hide Run, WritesLandAt;
    var s, t := Start(Statement(Write, true)), {Attempt(Planned, BackupCapturing)};
    var w1 := s.(tx := Open, pc := OpenJournal);
    Nothing(s);
    actions := Then(s, [], Everywhere, s, GOOD, w1);
    actions := Then(s, actions, Everywhere, w1, GOOD, AWrite(StartWork, Open, Planned, {}));
    var w3 := AWrite(Capturing, Open, BackupCapturing, t);
    actions := Then(s, actions, Everywhere, AWrite(StartWork, Open, Planned, {}), GOOD, w3);
    actions := Then(s, actions, Everywhere, w3, GOOD, w3.(pc := LinkTheBackup));
    var w4 := w3.(pc := BackupSaved, journal := Some(Row(BackupCapturing, None, Some(1), None)));
    actions := Then(s, actions, Everywhere, w3.(pc := LinkTheBackup), GOOD, w4);
    w := w4.(pc := Announce, journal := Some(Row(BackupDurable, None, Some(1), None)),
             attempts := t + {Attempt(BackupCapturing, BackupDurable)});
    actions := Then(s, actions, Everywhere, w4, GOOD, w);
  }

  predicate Quiet(actions: seq<Action>) {
    forall a :: a in actions ==> a == GOOD || a == CommitLands
  }

  lemma Nothing(w: World)
    ensures Run(w, []) == w && WritesLandAt(w, [], Everywhere)
  {
  }

  /** The same write, landed and answered. */
  lemma ReachSavedCommit() returns (actions: seq<Action>, w: World)
    ensures WritesLandAt(Start(Statement(Write, true)), actions, Everywhere)
    ensures Quiet(actions) && Run(Start(Statement(Write, true)), actions) == w
    ensures w.pc == RecordCommit && w.tx == Ended && w.landed && !w.expired && w.audit == None
    ensures w.stmt == Statement(Write, true) && w.journal == Some(Row(MutationExecuting, None, Some(1), None))
  {
    hide Run, WritesLandAt;
    var s := Start(Statement(Write, true));
    actions, w := ReachSaved();
    var w1 := Step(w, GOOD);
    Announcing(w);
    actions := Then(s, actions, Everywhere, w, GOOD, w1);
    var w2 := w1.(tx := CommitSent, pc := Committing);
    actions := Then(s, actions, Everywhere, w1, GOOD, w2);
    var w3 := w2.(tx := Ended, landed := true);
    actions := Then(s, actions, Everywhere, w2, CommitLands, w3);
    w := w3.(pc := RecordCommit);
    actions := Then(s, actions, Everywhere, w3, GOOD, w);
  }

  lemma Announcing(w: World)
    requires w.pc == Announce && w.journal == Some(Row(BackupDurable, None, Some(1), None))
    ensures var next := Step(w, GOOD);
            next == w.(pc := Executing, journal := Some(Row(MutationExecuting, None, Some(1), None)),
                       attempts := w.attempts + {Attempt(BackupDurable, MutationExecuting)})
  {
  }

  /** When everything is answered well, a write with rows to save lands, and its row is closed over the backup and
      the approved audit row. */
  lemma QuietWriteIsFinalized() returns (actions: seq<Action>)
    ensures WritesLandAt(Start(Statement(Write, true)), actions, Everywhere) && Quiet(actions)
    ensures var w := Run(Start(Statement(Write, true)), actions);
            && w.pc == Done && w.landed && w.tx == Ended && w.audit == Some(Approved)
            && w.journal == Some(Row(AuditFinalized, None, Some(1), Some(1)))
  {
    var s := Start(Statement(Write, true));
    var w: World;
    actions, w := ReachSavedApproval();
    hide *;
    QuietEnd(w);
    QuietMore();
    actions := Then(s, actions, Everywhere, w, GOOD, Step(w, GOOD));
    actions := Then(s, actions, Everywhere, Step(w, GOOD), GOOD, Step(Step(w, GOOD), GOOD));
  }

  lemma ReachSavedApproval() returns (actions: seq<Action>, w: World)
    ensures WritesLandAt(Start(Statement(Write, true)), actions, Everywhere)
    ensures Quiet(actions) && Run(Start(Statement(Write, true)), actions) == w
    ensures w.pc == Finalize && w.tx == Ended && w.landed && w.audit == Some(Approved)
    ensures w.journal == Some(Row(MutationCommitted, None, Some(1), None))
  {
    hide Run, WritesLandAt;
    var s := Start(Statement(Write, true));
    actions, w := ReachSavedCommit();
    var w1 := w.(pc := Return(true), journal := Some(Row(MutationCommitted, None, Some(1), None)),
                 attempts := w.attempts + {Attempt(MutationExecuting, MutationCommitted)});
    actions := Then(s, actions, Everywhere, w, GOOD, w1);
    actions := Then(s, actions, Everywhere, w1, GOOD, w1.(pc := GateOk));
    w := w1.(audit := Some(Approved), pc := Finalize);
    actions := Then(s, actions, Everywhere, w1.(pc := GateOk), GOOD, w);
  }

  lemma QuietMore()
    ensures forall actions: seq<Action> :: Quiet(actions) ==> Quiet(actions + [GOOD])
    ensures forall w: World :: !Loses(w, GOOD, Everywhere)
  {
  }

  lemma QuietEnd(w: World)
    requires w.pc == Finalize && w.journal == Some(Row(MutationCommitted, None, Some(1), None))
    ensures var end := Step(Step(w, GOOD), GOOD);
            && end.pc == Done && end.landed == w.landed && end.tx == w.tx && end.audit == w.audit
            && end.journal == Some(Row(AuditFinalized, None, Some(1), Some(1)))
  {
  }

  const BAD := Advance(Bad, false)

  /** An admin statement outside a transaction, answered well, is closed over its approved audit row. */
  lemma AdminIsFinalized() returns (actions: seq<Action>)
    ensures var w := Run(Start(Statement(Admin, false)), actions);
            && w.pc == Done && w.landed && w.tx == NoTx && w.audit == Some(Approved)
            && w.journal == Some(Row(AuditFinalized, None, None, Some(1)))
  {
    hide Run, WritesLandAt;
    var s := Start(Statement(Admin, false));
    Nothing(s);
    var w: World;
    actions, w := ReachAdminCommit();
    var w1 := w.(pc := Return(true), journal := Some(FRESH.(state := MutationCommitted)),
                 attempts := w.attempts + {Attempt(MutationExecuting, MutationCommitted)});
    actions := Then(s, actions, Everywhere, w, GOOD, w1);
    actions := Then(s, actions, Everywhere, w1, GOOD, w1.(pc := GateOk));
    var w2 := w1.(audit := Some(Approved), pc := Finalize);
    actions := Then(s, actions, Everywhere, w1.(pc := GateOk), GOOD, w2);
    AdminEnd(w2);
    actions := Then(s, actions, Everywhere, w2, GOOD, Step(w2, GOOD));
    actions := Then(s, actions, Everywhere, Step(w2, GOOD), GOOD, Step(Step(w2, GOOD), GOOD));
  }

  lemma AdminEnd(w: World)
    requires w.pc == Finalize && w.journal == Some(FRESH.(state := MutationCommitted))
    ensures var end := Step(Step(w, GOOD), GOOD);
            && end.pc == Done && end.landed == w.landed && end.tx == w.tx && end.audit == w.audit
            && end.journal == Some(Row(AuditFinalized, None, None, Some(1)))
  {
  }

  lemma ReachAdminCommit() returns (actions: seq<Action>, w: World)
    ensures WritesLandAt(Start(Statement(Admin, false)), actions, Everywhere)
    ensures Run(Start(Statement(Admin, false)), actions) == w
    ensures w.pc == RecordCommit && w.tx == NoTx && w.landed && !w.expired && w.audit == None
    ensures w.stmt == Statement(Admin, false) && w.journal == Some(FRESH.(state := MutationExecuting))
  {
    hide Run, WritesLandAt;
    var s := Start(Statement(Admin, false));
    Nothing(s);
    actions := Then(s, [], Everywhere, s, BAD, s.(pc := OpenJournal));
    var w1 := s.(pc := StartWork, journal := Some(FRESH));
    actions := Then(s, actions, Everywhere, s.(pc := OpenJournal), GOOD, w1);
    var t := {Attempt(Planned, BackupCapturing)};
    var w2 := w1.(pc := Announce, journal := Some(FRESH.(state := BackupCapturing)), attempts := t);
    actions := Then(s, actions, Everywhere, w1, GOOD, w2);
    var w3 := w2.(pc := Executing, journal := Some(FRESH.(state := MutationExecuting)),
                  attempts := t + {Attempt(BackupCapturing, MutationExecuting)});
    actions := Then(s, actions, Everywhere, w2, GOOD, w3);
    w := w3.(landed := true, pc := RecordCommit);
    actions := Then(s, actions, Everywhere, w3, GOOD, w);
  }

  /** A ROLLBACK that fails leaves the transaction open, and the caller has its error all the same. */
  lemma FailedRollbackLeavesOpen() returns (actions: seq<Action>)
    ensures WritesLandAt(Start(Statement(Write, true)), actions, Everywhere)
    ensures var w := Run(Start(Statement(Write, true)), actions);
            && w.pc == Done && w.tx == Open && !w.landed && w.audit == Some(ExecutionError)
            && w.journal == Some(FRESH.(state := Failed))
  {
    hide Run, WritesLandAt;
    var s, t := Start(Statement(Write, true)), {Attempt(Planned, BackupCapturing)};
    Nothing(s);
    var w1 := s.(tx := Open, pc := OpenJournal);
    actions := Then(s, [], Everywhere, s, GOOD, w1);
    actions := Then(s, actions, Everywhere, w1, GOOD, AWrite(StartWork, Open, Planned, {}));
    var w2 := AWrite(Capturing, Open, BackupCapturing, t);
    actions := Then(s, actions, Everywhere, AWrite(StartWork, Open, Planned, {}), GOOD, w2);
    actions := Then(s, actions, Everywhere, w2, BAD, w2.(pc := Recover));
    actions := Then(s, actions, Everywhere, w2.(pc := Recover), BAD, w2.(pc := RecordFailed));
    var w3 := AWrite(Return(false), Open, Failed, t + {Attempt(BackupCapturing, Failed)});
    actions := Then(s, actions, Everywhere, w2.(pc := RecordFailed), GOOD, w3);
    actions := Then(s, actions, Everywhere, w3, GOOD, w3.(pc := GateError));
    actions := Then(s, actions, Everywhere, w3.(pc := GateError), GOOD, w3.(pc := Done, audit := Some(ExecutionError)));
  }

  /** Dropped after the deadline while its COMMIT takes effect, a write is answered by an error, and its row still
      says that it is under way, for recovery to find. */
  lemma DroppedWorkIsLeftForRecovery() returns (actions: seq<Action>)
    ensures WritesLandAt(Start(Statement(Write, true)), actions, Everywhere)
    ensures var w := Run(Start(Statement(Write, true)), actions);
            && w.pc == Done && w.landed && w.expired && w.audit == Some(ExecutionError)
            && w.journal.Some? && w.journal.value.state == MutationExecuting && InRecoveryQuery(w.journal.value)
  {
    hide Run, WritesLandAt;
    var s := Start(Statement(Write, true));
    var w: World;
    actions, w := ReachSilentCommit(false, true, Everywhere);
    actions := Then(s, actions, Everywhere, w, DropWork, w.(pc := GateError));
    var end := w.(pc := Done, audit := Some(ExecutionError));
    actions := Then(s, actions, Everywhere, w.(pc := GateError), GOOD, end);
  }

  /** After a crash the program does nothing more, whatever happens: what was written locally stays as it is. */
  lemma CrashStopsTheProgram(w: World, later: seq<Action>)
    requires w.pc != Done
    ensures var end := Run(Step(w, Crash), later);
            end.pc == Dead && end.journal == w.journal && end.audit == w.audit && end.attempts == w.attempts
  {
    DeadStaysDead(Step(w, Crash), later);
  }

  lemma {:induction false} DeadStaysDead(w: World, actions: seq<Action>)
    requires w.pc == Dead
    ensures var end := Run(w, actions);
            end.pc == Dead && end.journal == w.journal && end.audit == w.audit && end.attempts == w.attempts
    decreases |actions|
  {
    hide Prepare, Work, Record, Gate;
    if actions != [] {
      DeadStaysDead(Step(w, actions[0]), actions[1..]);
    }
  }

  /** Once the server has given up the transaction of a write that has not landed, it never lands. */
  lemma ServerAbortIsFinal(w: World, later: seq<Action>)
    requires NothingFalse(w) && !w.landed && (w.tx.Open? || w.tx.CommitSent?)
    ensures !Run(Step(w, ServerAborts), later).landed
  {
    StepKeepsNothingFalse(w, ServerAborts);
    GivenUpNeverLands(Step(w, ServerAborts), later);
  }

  lemma {:induction false} GivenUpNeverLands(w: World, actions: seq<Action>)
    requires NothingFalse(w) && !w.landed && w.tx == Ended
    ensures !Run(w, actions).landed
    decreases |actions|
  {
    if actions != [] {
      StepKeepsNothingFalse(w, actions[0]);
      StaysGivenUp(w, actions[0]);
      hide Step, NothingFalse;
      GivenUpNeverLands(Step(w, actions[0]), actions[1..]);
    }
  }

  lemma StaysGivenUp(w: World, a: Action)
    requires NothingFalse(w) && !w.landed && w.tx == Ended
    ensures !Step(w, a).landed && Step(w, a).tx == Ended
  {
    hide Record, Gate;
    if a.Advance? {
      if Recording(w.pc) {
        RecordKeepsTx(w, a.lost);
      } else if Closing(w.pc) {
        GateKeepsTx(w, a.answer, a.lost);
      }
    }
  }

  lemma RecordKeepsTx(w: World, lost: bool)
    ensures Record(w, lost).tx == w.tx && Record(w, lost).landed == w.landed
  {
  }

  lemma GateKeepsTx(w: World, answer: Answer, lost: bool)
    ensures Gate(w, answer, lost).tx == w.tx && Gate(w, answer, lost).landed == w.landed
  {
  }

  /** An error is not proof that nothing happened: when the deadline fires during a COMMIT that then
      succeeds, the caller gets an error and an error audit row, and the mutation is durable. */
  lemma TimeoutAfterRealCommit() returns (actions: seq<Action>)
    ensures WritesLandAt(Start(Statement(Write, true)), actions, Everywhere)
    ensures var w := Run(Start(Statement(Write, true)), actions);
            w.pc == Done && w.landed && w.expired && !w.commitFailed && w.audit == Some(ExecutionError)
            && w.journal.Some? && w.journal.value.state == MutationCommitted && InRecoveryQuery(w.journal.value)
  {
    hide Run, WritesLandAt;
    var s := Start(Statement(Write, true));
    var w := ReachTimeoutError();
    actions := w.0;
    actions := Then(s, actions, Everywhere, w.1, GOOD, w.1.(audit := Some(ExecutionError), pc := Done));
  }

  lemma ReachTimeoutError() returns (r: (seq<Action>, World))
    ensures WritesLandAt(Start(Statement(Write, true)), r.0, Everywhere)
    ensures Run(Start(Statement(Write, true)), r.0) == r.1
    ensures r.1.pc == GateError && r.1.landed && r.1.expired && !r.1.commitFailed && r.1.audit == None
    ensures r.1.journal == Some(FRESH.(state := MutationCommitted))
  {
    hide Run, WritesLandAt;
    var s := Start(Statement(Write, true));
    var actions, w0 := ReachSilentCommit(false, true, Everywhere);
    actions := Then(s, actions, Everywhere, w0, GOOD, w0.(pc := RecordCommit));
    var w1 := w0.(pc := Return(true), journal := Some(FRESH.(state := MutationCommitted)),
                  attempts := w0.attempts + {Attempt(MutationExecuting, MutationCommitted)});
    actions := Then(s, actions, Everywhere, w0.(pc := RecordCommit), GOOD, w1);
    actions := Then(s, actions, Everywhere, w1, GOOD, w1.(pc := GateError));
    r := (actions, w1.(pc := GateError));
  }

  /** COMMIT takes effect, and its answer is an error. */
  lemma ReachCommitError(expired: bool) returns (actions: seq<Action>)
    ensures var w := Run(Start(Statement(Write, true)), actions);
            ErrorReturned(w.pc) && w.landed && w.expired == expired && w.commitFailed
  {
    hide Run, WritesLandAt;
    var s := Start(Statement(Write, true));
    var w0;
    actions, w0 := ReachSilentCommit(false, expired, Everywhere);
    var w1 := w0.(commitFailed := true, pc := CommitFailed);
    actions := Then(s, actions, Everywhere, w0, Advance(Bad, false), w1);
    actions := Then(s, actions, Everywhere, w1, GOOD, w1.(pc := RecordUncertain));
    var w2 := w1.(pc := Return(false), journal := Some(FRESH.(state := Uncertain)),
                  attempts := w1.attempts + {Attempt(MutationExecuting, Uncertain)});
    actions := Then(s, actions, Everywhere, w1.(pc := RecordUncertain), GOOD, w2);
  }

  /** For each cause of error that leaves the outcome open, a run in which the mutation has landed. */
  lemma ReachLandedError(expired: bool, commitFailed: bool) returns (actions: seq<Action>)
    requires expired || commitFailed
    ensures var w := Run(Start(Statement(Write, true)), actions);
            ErrorReturned(w.pc) && w.landed && w.expired == expired && w.commitFailed == commitFailed
  {
    hide Run, WritesLandAt;
    if commitFailed {
      actions := ReachCommitError(expired);
    } else {
      var r := ReachTimeoutError();
      actions := r.0;
    }
  }

  predicate NotStartWork(pc: Pc) {
    pc != StartWork
  }

  /** A write whose first journal transition is lost, with its COMMIT in effect. */
  lemma ReachUntrackedCommit() returns (actions: seq<Action>, w: World)
    ensures WritesLandAt(Start(Statement(Write, true)), actions, NotStartWork)
    ensures Run(Start(Statement(Write, true)), actions) == w
    ensures w.pc == Committing && w.tx == Ended && w.landed && w.journal == Some(FRESH)
  {
    hide Run, WritesLandAt;
    var s := Start(Statement(Write, true));
    actions := ReachAnnounce(true, NotStartWork);
    var w0 := AWrite(Announce, Open, Planned, {});
    var w1 := AWrite(Executing, Open, Planned, {Attempt(Planned, MutationExecuting)});
    actions := Then(s, actions, NotStartWork, w0, GOOD, w1);
    var w2 := w1.(tx := CommitSent, pc := Committing);
    actions := Then(s, actions, NotStartWork, w1, GOOD, w2);
    w := w2.(tx := Ended, landed := true);
    actions := Then(s, actions, NotStartWork, w2, CommitLands, w);
  }

  /** One lost write early on makes the later ones illegal, and a durable mutation stays on record as
      merely planned. */
  lemma LostWriteHidesCommit() returns (actions: seq<Action>)
    ensures WritesLandAt(Start(Statement(Write, true)), actions, NotStartWork)
    ensures var w := Run(Start(Statement(Write, true)), actions);
            w.landed && w.journal.Some? && w.journal.value.state == Planned
            && Attempt(Planned, MutationCommitted) in w.attempts
  {
    hide Run, WritesLandAt;
    var s := Start(Statement(Write, true));
    var w;
    actions, w := ReachUntrackedCommit();
    actions := Then(s, actions, NotStartWork, w, GOOD, w.(pc := RecordCommit));
    actions := Then(s, actions, NotStartWork, w.(pc := RecordCommit), GOOD,
                    w.(pc := Return(true), attempts := w.attempts + {Attempt(Planned, MutationCommitted)}));
  }

  /** A DDL statement whose journal row is open, before its preflight. */
  lemma ReachPreflight(reliable: Pc -> bool) returns (actions: seq<Action>)
    ensures WritesLandAt(Start(Statement(Ddl, true)), actions, reliable)
    ensures Run(Start(Statement(Ddl, true)), actions) ==
            World(Statement(Ddl, true), Preflight, Open, false, false, false, Some(FRESH), None, {})
  {
    var s := Start(Statement(Ddl, true));
    var w1 := s.(tx := Open, pc := OpenJournal);
    actions := Then(s, [], reliable, s, GOOD, w1);
    actions := Then(s, actions, reliable, w1, GOOD, w1.(journal := Some(FRESH), pc := Preflight));
  }

  /** The same statement running, its implicit commit already in effect. */
  lemma ReachLandedDdl() returns (actions: seq<Action>, w: World)
    ensures WritesLandAt(Start(Statement(Ddl, true)), actions, Everywhere)
    ensures Run(Start(Statement(Ddl, true)), actions) == w
    ensures w.stmt == Statement(Ddl, true) && w.pc == Executing && w.landed && w.tx == Open
    ensures w.journal == Some(FRESH.(state := MutationExecuting))
  {
    hide Run, WritesLandAt;
    var s := Start(Statement(Ddl, true));
    actions := ReachPreflight(Everywhere);
    var w0 := World(Statement(Ddl, true), Preflight, Open, false, false, false, Some(FRESH), None, {});
    actions := Then(s, actions, Everywhere, w0, GOOD, w0.(pc := StartWork));
    var w1 := w0.(pc := Capturing, journal := Some(FRESH.(state := BackupCapturing)),
                  attempts := {Attempt(Planned, BackupCapturing)});
    actions := Then(s, actions, Everywhere, w0.(pc := StartWork), GOOD, w1);
    actions := Then(s, actions, Everywhere, w1, Advance(Empty, false), w1.(pc := Announce));
    var w2 := w1.(pc := Executing, journal := Some(FRESH.(state := MutationExecuting)),
                  attempts := w1.attempts + {Attempt(BackupCapturing, MutationExecuting)});
    actions := Then(s, actions, Everywhere, w1.(pc := Announce), GOOD, w2);
    w := w2.(landed := true);
    actions := Then(s, actions, Everywhere, w2, StatementLands, w);
  }

  /** DDL commits by itself: a statement that took effect and then reported an error is recorded as
      failed. */
  lemma DdlCanLandAndReadFailed() returns (actions: seq<Action>)
    ensures WritesLandAt(Start(Statement(Ddl, true)), actions, Everywhere)
    ensures WritesLandAt(Start(Statement(Ddl, true)), actions, Key)
    ensures var w := Run(Start(Statement(Ddl, true)), actions);
            w.landed && w.journal.Some? && w.journal.value.state == Failed
            && Attempt(MutationExecuting, Failed) in w.attempts
  {
    hide Run, WritesLandAt;
    var s := Start(Statement(Ddl, true));
    var w0;
    actions, w0 := ReachLandedDdl();
    actions := Then(s, actions, Everywhere, w0, Advance(Bad, false), w0.(pc := Recover));
    var w1 := w0.(pc := RecordFailed, tx := Ended);
    actions := Then(s, actions, Everywhere, w0.(pc := Recover), GOOD, w1);
    actions := Then(s, actions, Everywhere, w1, GOOD,
                    w1.(pc := Return(false), journal := Some(FRESH.(state := Failed)),
                        attempts := w1.attempts + {Attempt(MutationExecuting, Failed)}));
    FewerReliable(s, actions, Everywhere, Key);
  }

  lemma {:induction false} FewerReliable(w: World, actions: seq<Action>, reliable: Pc -> bool, fewer: Pc -> bool)
    requires WritesLandAt(w, actions, reliable) && forall pc :: fewer(pc) ==> reliable(pc)
    ensures WritesLandAt(w, actions, fewer)
    decreases |actions|
  {
    hide Step;
    if actions != [] {
      FewerReliable(Step(w, actions[0]), actions[1..], reliable, fewer);
    }
  }

  /** A DDL no-op on the way to its audit row, recorded as failed or, if that write is lost, not at all. */
  lemma ReachNoOp(lost: bool, reliable: Pc -> bool) returns (actions: seq<Action>, w: World)
    requires lost ==> !reliable(Preflight)
    ensures WritesLandAt(Start(Statement(Ddl, true)), actions, reliable)
    ensures Run(Start(Statement(Ddl, true)), actions) == w
    ensures w.pc == GateOk && w.journal == Some(FRESH.(state := if lost then Planned else Failed))
  {
    hide Run, WritesLandAt;
    var s := Start(Statement(Ddl, true));
    actions := ReachPreflight(reliable);
    var w0 := World(Statement(Ddl, true), Preflight, Open, false, false, false, Some(FRESH), None, {});
    var row := FRESH.(state := if lost then Planned else Failed);
    w := w0.(pc := GateOk, journal := Some(row), attempts := if lost then {} else {Attempt(Planned, Failed)});
    actions := Then(s, actions, reliable, w0, Advance(Empty, lost), w);
  }

  /** And then finalized. */
  lemma ReachNoOpFinalize(lost: bool, reliable: Pc -> bool) returns (actions: seq<Action>)
    requires lost ==> !reliable(Preflight)
    ensures WritesLandAt(Start(Statement(Ddl, true)), actions, reliable)
    ensures var w := Run(Start(Statement(Ddl, true)), actions);
            w.pc == Done && w.journal.Some? && w.journal.value.auditId.Some?
            && w.journal.value.state == (if lost then Planned else Failed)
            && Attempt(w.journal.value.state, AuditFinalized) in w.attempts
  {
    hide Run, WritesLandAt;
    var s := Start(Statement(Ddl, true));
    var w;
    actions, w := ReachNoOp(lost, reliable);
    var w1 := w.(audit := Some(Approved), pc := Finalize);
    actions := Then(s, actions, reliable, w, GOOD, w1);
    var w2 := w1.(pc := LinkTheAudit, attempts := w1.attempts + {Attempt(w.journal.value.state, AuditFinalized)});
    actions := Then(s, actions, reliable, w1, GOOD, w2);
    actions := Then(s, actions, reliable, w2, GOOD,
                    w2.(journal := Some(w.journal.value.(auditId := Some(1))), pc := Done));
  }

  /** The one illegal attempt does occur: a DDL no-op is recorded as failed and then finalized. */
  lemma NoOpIsFinalizedInVain() returns (actions: seq<Action>)
    ensures WritesLandAt(Start(Statement(Ddl, true)), actions, Everywhere)
    ensures var w := Run(Start(Statement(Ddl, true)), actions);
            w.pc == Done && w.journal.Some? && w.journal.value.state == Failed
            && w.journal.value.auditId.Some? && Attempt(Failed, AuditFinalized) in w.attempts
  {
    actions := ReachNoOpFinalize(false, Everywhere);
  }

  // ----- Which journal writes the legality of later attempts rests on -----

  ghost predicate OnlyLegal(stmt: Statement, actions: seq<Action>, reliable: Pc -> bool) {
    WritesLandAt(Start(stmt), actions, reliable) ==>
      forall t :: t in Run(Start(stmt), actions).attempts ==> LegalOrNoOpFinalize(stmt, t)
  }

  /** Each key write, when lost, can make a later attempt illegal. */
  lemma LostKeyWrite(pc: Pc, reliable: Pc -> bool) returns (stmt: Statement, actions: seq<Action>)
    requires Key(pc) && !reliable(pc)
    ensures !OnlyLegal(stmt, actions, reliable)
  {
    hide Run, WritesLandAt;
    stmt := Statement(if pc == Preflight then Ddl else Write, true);
    var s := Start(stmt);
    var bad;
    match pc {
      case Preflight =>
        actions := ReachNoOpFinalize(true, reliable);
        bad := Attempt(Planned, AuditFinalized);
      case StartWork =>
        actions := ReachAnnounce(true, reliable);
        bad := Attempt(Planned, MutationExecuting);
        actions := Then(s, actions, reliable, AWrite(Announce, Open, Planned, {}), GOOD,
                        AWrite(Executing, Open, Planned, {bad}));
      case Announce =>
        var w;
        actions, w := ReachSilentCommit(true, false, reliable);
        bad := Attempt(BackupCapturing, MutationCommitted);
        actions := Then(s, actions, reliable, w, GOOD, w.(pc := RecordCommit));
        actions := Then(s, actions, reliable, w.(pc := RecordCommit), GOOD,
                        w.(pc := Return(true), attempts := w.attempts + {bad}));
      case RecordCommit =>
        actions, bad := ReachUnrecordedFinalize(reliable);
    }
    assert bad in Run(s, actions).attempts && !LegalOrNoOpFinalize(stmt, bad);
  }

  lemma ReachUnrecordedFinalize(reliable: Pc -> bool) returns (actions: seq<Action>, bad: Attempt)
    requires !reliable(RecordCommit)
    ensures WritesLandAt(Start(Statement(Write, true)), actions, reliable)
    ensures bad == Attempt(MutationExecuting, AuditFinalized)
        && bad in Run(Start(Statement(Write, true)), actions).attempts
  {
    hide Run, WritesLandAt;
    var s := Start(Statement(Write, true));
    var w;
    actions, w := ReachSilentCommit(false, false, reliable);
    bad := Attempt(MutationExecuting, AuditFinalized);
    actions := Then(s, actions, reliable, w, GOOD, w.(pc := RecordCommit));
    actions := Then(s, actions, reliable, w.(pc := RecordCommit), LOST, w.(pc := Return(true)));
    actions := Then(s, actions, reliable, w.(pc := Return(true)), GOOD, w.(pc := GateOk));
    var w1 := w.(audit := Some(Approved), pc := Finalize);
    actions := Then(s, actions, reliable, w.(pc := GateOk), GOOD, w1);
    actions := Then(s, actions, reliable, w1, GOOD, w1.(pc := LinkTheAudit, attempts := w1.attempts + {bad}));
  }

  /** In every run whose journal writes land at the reliable points all attempts are legal, DDL no-ops
      aside, if and only if the four key writes are reliable. */
  lemma AttemptsAreLegalIff(reliable: Pc -> bool)
    ensures (forall stmt, actions :: OnlyLegal(stmt, actions, reliable)) <==> forall pc :: Key(pc) ==> reliable(pc)
  {
    if forall pc :: Key(pc) ==> reliable(pc) {
      forall stmt, actions ensures OnlyLegal(stmt, actions, reliable) {
        if WritesLandAt(Start(stmt), actions, reliable) {
          FewerReliable(Start(stmt), actions, reliable, Key);
          JournalAttempts(stmt, actions);
        }
      }
    } else {
      var pc :| Key(pc) && !reliable(pc);
      var stmt, actions := LostKeyWrite(pc, reliable);
    }
  }
}
