/**
 The operation journal (src/backup/journal.rs): one row per gated mutation, moved forward through a
 fixed table of transitions, and the query that lists what a crash may have left behind.
*/
module Journal {

  import opened Wrappers

  datatype JournalState =
    | Planned
    | BackupCapturing
    | BackupDurable
    | MutationExecuting
    | MutationCommitted
    | AuditFinalized
    | Failed
    | Uncertain

  datatype Row = Row(state: JournalState, detail: Option<string>, backupId: Option<int>, auditId: Option<int>)

  /** The transition table. */
  predicate Allowed(from: JournalState, to: JournalState) {
    match from
    case Planned => to.BackupCapturing? || to.Failed?
    case BackupCapturing => to.BackupDurable? || to.MutationExecuting? || to.Failed?
    case BackupDurable => to.MutationExecuting? || to.Failed?
    case MutationExecuting => to.MutationCommitted? || to.Failed? || to.Uncertain?
    case MutationCommitted => to.AuditFinalized? || to.Uncertain?
    case AuditFinalized => false
    case Failed => false
    case Uncertain => false
  }

  /** The row after an attempted transition; a refused attempt leaves it alone. */
  function Moved(row: Row, to: JournalState, detail: Option<string>): Row {
    if Allowed(row.state, to) then
      row.(state := to, detail := if detail.Some? then detail else row.detail)
    else row
  }

  /** The condition of the crash-recovery query, as it is written in SQL. */
  predicate InRecoveryQuery(row: Row) {
    || !(row.state.AuditFinalized? || row.state.Failed? || row.state.Uncertain?)
    || (row.state == MutationCommitted && row.auditId.None?)
  }

  /** The stored journal; a row's id is its position. */
  class JournalTable {
    var rows: seq<Row>

    constructor ()
      ensures rows == []
    {
      rows := [];
    }

    method Create() returns (id: nat)
      modifies this
      ensures id == |old(rows)| && rows == old(rows) + [Row(Planned, None, None, None)]
    {
      id := |rows|;
      rows := rows + [Row(Planned, None, None, None)];
    }

    /** Refused, with nothing written, when the row is missing or the table has no such move. */
    method Transition(id: nat, to: JournalState, detail: Option<string>) returns (ok: bool)
      modifies this
      ensures ok <==> id < |old(rows)| && Allowed(old(rows)[id].state, to)
      ensures rows == if id < |old(rows)| then old(rows)[id := Moved(old(rows)[id], to, detail)] else old(rows)
      ensures ok ==>
                var was := old(rows)[id];
                rows == old(rows)[id := Row(to, if detail.Some? then detail else was.detail, was.backupId, was.auditId)]
      ensures !ok ==> rows == old(rows)
    {
      if id >= |rows| { return false; }
      var row := rows[id];
      ok := Allowed(row.state, to);
      if !ok { return; }
      rows := rows[id := Row(to, if detail.Some? then detail else row.detail, row.backupId, row.auditId)];
    }

    method LinkBackup(id: nat, backupId: int)
      modifies this
      ensures rows == if id < |old(rows)| then old(rows)[id := old(rows)[id].(backupId := Some(backupId))]
                      else old(rows)
    {
      if id < |rows| {
        rows := rows[id := rows[id].(backupId := Some(backupId))];
      }
    }

    method LinkAudit(id: nat, auditId: int)
      modifies this
      ensures rows == if id < |old(rows)| then old(rows)[id := old(rows)[id].(auditId := Some(auditId))]
                      else old(rows)
    {
      if id < |rows| {
        rows := rows[id := rows[id].(auditId := Some(auditId))];
      }
    }

    /** Exactly the rows whose state still has a successor, in id order. */
    method Recoverable() returns (ids: seq<nat>)
      ensures forall i: nat :: i in ids <==> i < |rows| && (exists to :: Allowed(rows[i].state, to))
      ensures forall a, b :: 0 <= a < b < |ids| ==> ids[a] < ids[b]
    {
      ids := [];
      for i := 0 to |rows|
        invariant forall k: nat :: k in ids <==> k < i && (exists to :: Allowed(rows[k].state, to))
        invariant forall a, b :: 0 <= a < b < |ids| ==> ids[a] < ids[b]
        invariant forall a :: 0 <= a < |ids| ==> ids[a] < i
      {
        RecoveryQueryIsNonTerminal(rows[i]);
        if InRecoveryQuery(rows[i]) {
          ids := ids + [i];
        }
      }
    }
  }

  /** The query finds exactly the rows that can still move: its second arm adds nothing. */
  lemma RecoveryQueryIsNonTerminal(row: Row)
    ensures InRecoveryQuery(row) <==> exists to :: Allowed(row.state, to)
  {
    if InRecoveryQuery(row) {
      var to := match row.state
        case MutationExecuting | MutationCommitted => Uncertain
        case _ => Failed;
      assert Allowed(row.state, to);
    }
  }

  /** How far along the way to a closed row a state is; failed and uncertain rows have left it. */
  function Stage(state: JournalState): Option<nat> {
    match state
    case Planned => Some(0)
    case BackupCapturing => Some(1)
    case BackupDurable => Some(2)
    case MutationExecuting => Some(3)
    case MutationCommitted => Some(4)
    case AuditFinalized => Some(5)
    case _ => None
  }

  /** A row moves one stage on, or over the saved backup; it can fail as long as no commit is recorded, and turn
      uncertain once the mutation is announced and not closed. There are no other moves. */
  lemma MovesGoForward(from: JournalState, to: JournalState)
    ensures Allowed(from, to)
       <==> && Stage(from).Some?
            && match to
               case Failed => Stage(from).value < 4
               case Uncertain => Stage(from).value == 3 || Stage(from).value == 4
               case _ => Stage(to).value == Stage(from).value + 1 || (from.BackupCapturing? && to.MutationExecuting?)
  {
  }

  /** The row after a whole list of attempts. */
  function MovedAll(row: Row, attempts: seq<JournalState>): Row
    decreases |attempts|
  {
    if attempts == [] then row else MovedAll(Moved(row, attempts[0], None), attempts[1..])
  }

  predicate SaysLanded(state: JournalState) {
    state.MutationCommitted? || state.AuditFinalized? || state.Uncertain?
  }

  /** Whatever is attempted later, a row that once recorded a commit never reads failed, planned or
      backing-up again, and a row that cannot move further never changes. */
  lemma {:induction false} RecordsAreNeverTakenBack(row: Row, attempts: seq<JournalState>)
    ensures SaysLanded(row.state) ==> SaysLanded(MovedAll(row, attempts).state)
    ensures row.state.AuditFinalized? || row.state.Failed? || row.state.Uncertain? ==> MovedAll(row, attempts) == row
    ensures MovedAll(row, attempts).backupId == row.backupId
    decreases |attempts|
  {
    if attempts != [] {
      RecordsAreNeverTakenBack(Moved(row, attempts[0], None), attempts[1..]);
    }
  }
}
