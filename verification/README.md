# Verified model of the SQL gateway

The gateway puts a policy between MCP clients and MySQL or SQLite servers: it classifies each statement,
asks for approval where the policy says so, backs up what is about to change, executes, and keeps a
chained audit log. This project models the parts of it where being wrong is expensive, and proves what
they promise for every input, every run or every interleaving. `dafny verify dfyconfig.toml` checks all
of it.

| module | models | main results |
|---|---|---|
| `LineLimits` | the bounded line adapter on the client's byte stream, imperatively, over its one buffer | `Transport`: for every stream, chunking and downstream capacity the output is the simple line filter |
| `Journal`, `Lifecycle` | the journal of one mutation; executor, gate, server, deadline and crash as one state machine | `NothingRunsUnchecked`, `AttemptsAreLegalIff`, `RecordsAreTrue`, `CommittedIsOnRecordIff`, `ErrorIsProofIff` |
| `SqlText`, `UpsertText` | printed identifiers, literals and statements, and the server's rules for reading them (MySQL 8.4 Reference Manual, sections 11.1.1 and 11.2) | `RewriteNamesExactly`, `UpsertRoundTrip` |
| `RenamePlan` | preflight of RENAME chains against execution on the catalog | `PreflightAgreesIff`, `OnceInEachRoleIsExact` |
| `DropPlan` | plan, approval, re-check and send of a DROP among other sessions | `OnlyPlannedTablesAreDropped`, `ContainedIff`, `SentWasApproved` |
| `AuditChain` | writer and verifier of the audit log | `LogHoldsWhatWasWritten`, `HonestLogVerifies`, `EditIsReportedIff`, `HeadHashFixesHistory`, `SurvivorsAreReportedIff` |
| `Mrtr` | the one-shot approval store | `SucceedsAtMostOnce`, `SuccessIsBound`, `PendingTokenIsFound` |
| `SessionGrants` | session grants under printed keys | `KeyIsItsOwnIff`, `CoversIffLatestGrantHolds`, `CoveredByOwnGrantIff` |
| `Transport` | tunnel and pool caches, every lock section a step; sections on pools come between those of one publication | `RetiredIsNeverLeased`, `PoolIsTheCallersOwn`, `RetiredPoolsCameLate`, `UnretiredIff` |
| `ObjectGraph` | which tables a query reads | `CollectsWhatOccurs`, `UnwalkedPartsDoNotCount` |
| `Resolver` | two-layer policy resolution and its migration | `StrictestWins`, `LimitsFollowOrderIff`, `AllowNeedsTheBaseline`, `MigrationKeepsTheAction` |
| `Extractor` | which rows an UPDATE or DELETE saves, and which of these queries the server answers | `WhatIsSaved`, `SavedRightIff` |
| `RestoreGate` | classification of every restore statement before a replay: comments stripped, statements counted, files and policy | `ParsesIff`, `RowAdmittedIff` |
| `Undo` | a statement, its capture, the restore plan, the gate, the replay | `AbortUndoIff`, `UndoIsExactIff`, `SqliteDeleteUndoIff` |
| `KnownHosts` | host patterns, their translation and matcher | `MatcherDecidesGlob`, `QuestionMarksFail` |

Code that updates state in place is a class or a method with loops, proved against a specification
function or predicate; protocols between several parties are state machines over their steps, and the
results quantify over every sequence of steps. Servers, other sessions, the clock and the network are
nondeterministic steps or parameters. The hash of the audit log is a parameter, injective where
tampering is concerned. Tokens are assumed fresh and the clock monotone.

## Where the code falls short of what it promises

Each of these is proved, with the condition under which the code does keep its promise.

- An UPDATE that assigns a column through an alias runs without any backup, under Abort too
  (src/backup/extractor.rs:243-293, src/sql/mysql.rs:714): `UPDATE users u SET u.name = 'x' WHERE u.id = 1`
  (`Extractor.AliasedUpdateSavesNothing`, `Undo.AliasedUpdateStays`). `DELETE u FROM users u` saves the rows of a
  table `u` (`Extractor.AliasedDeleteSavesAnother`), and any filtered statement with an alias is refused, because its
  capture query names the table and not the alias or the other way round, except for the UPDATE above. Exactly
  which statements save their own rows is `Extractor.SavedRightIff`. An UPDATE of several tables saves none but those
  its assignments name by their own names (`Extractor.UpdateSavesIff`, `Extractor.BareColumnIsNotSaved`).
- A restore plan must pass the classifier, which strips comments inside quoted texts too
  (src/policy/classifier.rs:95-120, src/mcp/tools.rs:2281-2325). A row that reads `C#` cannot be restored
  (`RestoreGate.HashIsRefused`, `Undo.HashIsNotRestored`). Under plain names a row is classified exactly when every
  comment that opens in one of its texts ends in it or in a later one (`RestoreGate.ParsesIff`), and passes as
  `RestoreGate.RowAdmittedIff` says.
- Undo goes by the database in use, not by the qualifier of the table (src/sql/mysql.rs:720 and 992, and
  src/backup/mod.rs:258-262): with `app` in use, the plan for `DELETE FROM other.users` writes into
  `app.users` (`Undo.UndoOverwritesAnotherTable`). On MySQL a change that ran under Abort is undone exactly when it
  changed nothing, or its own rows were saved, it did not name another database and all saved rows pass the gate
  (`Undo.AbortUndoIff`); on SQLite a DELETE that was captured in full is undone exactly when nothing was deleted, or
  the table is in the database in use, the rows pass, and no deleted text has a backslash, which is printed doubled
  and kept so (`Undo.SqliteDeleteUndoIff`).
- DROP SCHEMA is planned, checked and approved as if its name were a table in the database in use, and then
  takes every table of the schema along (`DropPlan.SchemaDropIsNotContained`). Names in an executable comment, as in
  `DROP TABLE a /*! , b */`, are stripped before planning and run by the server (src/policy/classifier.rs:293,
  src/sql/mysql.rs:702; `DropPlan.StrayNameIsNotContained`). Exactly which statements remove only what their plan
  found is `DropPlan.ContainedIff`.
- The overlay of a RENAME chain reads a name that was freed and filled again as absent
  (src/sql/ddl.rs:211-246): it refuses chains that would run and accepts chains that fail. Preflight and
  server agree exactly when no such name is looked up (`RenamePlan.PreflightAgreesIff`).
- An error from the executor does not mean nothing happened (`Lifecycle.TimeoutAfterRealCommit`): for a write
  it does exactly when it is neither the deadline nor an error in answer to COMMIT (`Lifecycle.ErrorIsProofIff`).
  DDL that took effect can be on record as failed (`Lifecycle.DdlCanLandAndReadFailed`): a failed row is right
  exactly when the mutation had not been announced (`Lifecycle.FailedRowIsRightIff`).
- Journal writes are made without looking at their result. A landed write is on record exactly when the three
  opening ones were stored (`Lifecycle.CommittedIsOnRecordIff`), and later attempts stay legal exactly as long
  as four of them can be relied on (`Lifecycle.AttemptsAreLegalIff`), except that a DDL no-op is closed as
  failed and then finalized in vain (`Lifecycle.NoOpIsFinalizedInVain`).
- The second arm of the recovery query adds no row (`Journal.RecoveryQueryIsNonTerminal`).
- The gateway's own README.md (line 139) promises the order exact rule, wildcard rule, baseline. An exact
  rule that is silent about a category nevertheless shadows the wildcard rule
  (`Resolver.ExactShadowsWildcardIff`). The limits that apply can depend on the order of the tables
  (`Resolver.LimitsFollowOrderIff`), as for `DROP TABLE d.a, d.b` (`Resolver.DropOrderDecidesRowCap`).
- JOIN conditions, windows, VALUES, TABLE and some other positions are not walked
  (`ObjectGraph.TableBodyIsNotCollected`, `ObjectGraph.UnwalkedPartsDoNotCount`), and a CTE hides any table of
  the same bare name, whatever its database, from the declaration on (`ObjectGraph.CteHidesQualifiedTable`).
  All tables are collected exactly when each occurs early where the walk comes by
  (`ObjectGraph.AllAreCollectedIff`).
- A question mark in a known_hosts pattern does not stand for any character (`KnownHosts.QuestionMarksFail`).
- Two session grants can share a printed key. A key belongs to one scope alone, and exactly its own grants decide,
  if and only if it is for one table at most, without a dot in its names (`SessionGrants.KeyIsItsOwnIff`,
  `SessionGrants.CoveredByOwnGrantIff`): two plain tables `a.b` and `c.d` print like the table `b,c.d` of `a`. As long
  as no granted name has a comma, one dot in each dotted name is enough and needed
  (`SessionGrants.CommaFreeKeyIsItsOwnIff`, `SessionGrants.CommaFreeCoverageIff`).
- A pool on a retired tunnel can be cached and handed out: between the mark and the eviction
  (`Transport.PendingEvictionRun`), or because it was published after the retirement
  (`Transport.LateLeaseholderRun`); there is no third way (`Transport.RetiredPoolsCameLate`). Two openings of one
  identity can overwrite a live tunnel, which is never retired then (`Transport.OverwrittenRun`,
  `Transport.UnretiredIff`).
- An audit log that loses rows by category is accepted exactly when no remaining row stands beside one it does
  not belong to (`AuditChain.SurvivorsAreReportedIff`); edits outside the hashed payload are never noticed
  (`AuditChain.UnhashedEditIsNeverReported`); and a row whose two hash columns are emptied can say anything
  (`AuditChain.EmptiedRowIsAccepted`). Exactly which rows can stand in for an honest one is
  `AuditChain.ReplacementIsAcceptedIff`.

## Model

| member | source | states |
|---|---|---|
| LineLimits.KeptLine | src/mcp/limits.rs:161-213 | A complete line at the front of a stream is kept or dropped whole, by its own length alone, whatever follows it |
| LineLimits.KeptOversized | src/mcp/limits.rs:177-191 | More than `limit` bytes without a newline lose everything up to and including the next newline, and count as one dropped line |
| LineLimits.KeptSplitsAtLineEnds | src/mcp/limits.rs:96-217 | The filter and its drop count are additive over any split of the stream at a line end |
| LineLimits.KeptIsCompliant | src/mcp/limits.rs:96-217 | The filtered stream holds no oversized line, and filtering it again changes nothing |
| LineLimits.VerbatimIff | src/mcp/limits.rs:96-217 | A stream passes verbatim exactly when no line of it exceeds the limit |
| LineLimits.Upstream.PollInto | src/mcp/limits.rs:192-213 | One upstream read: any schedule of pending polls, errors and short reads; a ready read of zero bytes into a non-empty window means the end |
| LineLimits.LineLimited.constructor | src/mcp/limits.rs:77-92 | A new adapter owes exactly the kept lines of its upstream, with buffers of limit+1 and min(8 KiB, limit+1) bytes |
| LineLimits.LineLimited.Drain | src/mcp/limits.rs:110-129 | A draining step emits at least one and at most `capacity` bytes of what is owed, and carries the buffered rest of the stream over |
| LineLimits.LineLimited.Discard | src/mcp/limits.rs:130-160 | A discarding step leaves what is still owed and the drop count unchanged, and either consumes upstream bytes, ends, or gives up its turn |
| LineLimits.LineLimited.CarryOver | src/mcp/limits.rs:140-153 | The bytes behind the newline that ends an oversized line become the buffered start of the next one |
| LineLimits.LineLimited.Scan | src/mcp/limits.rs:161-176 | Scanning finds a buffered line exactly when there is one, and nothing is lost |
| LineLimits.LineLimited.Refill | src/mcp/limits.rs:192-213 | A read always gets a non-empty window; at the end an unterminated tail within the limit is emitted |
| LineLimits.LineLimited.Fill | src/mcp/limits.rs:161-213 | The filling arm keeps what is owed; a line that is already buffered starts draining without an upstream read |
| LineLimits.LineLimited.PollRead | src/mcp/limits.rs:96-217 | One poll: emitted bytes plus what is still owed is what was owed; scanned <= fill <= limit+1 with no newline before `scanned`; an empty ready answer means the true end; a buffered line comes out without an upstream read; the loop has a measure |
| LineLimits.ReadAll | src/mcp/limits.rs:96-217 | Polling to the end yields everything owed, within |owed| + |schedule| + 1 polls |
| LineLimits.Transport | src/mcp/limits.rs:77-217 | For every stream, upstream schedule and list of downstream capacities the output is a prefix of the kept lines, and equals them, with the right drop count, once the end is reported |
| LineLimits.FindNewline | src/mcp/limits.rs:167-169 | The first newline of the range, or its end |
| Journal.JournalTable.Create | src/backup/journal.rs:94-113 | A new journal row starts as planned |
| Journal.JournalTable.Transition | src/backup/journal.rs:125-151 | A transition succeeds exactly for allowed moves of an existing row; a refused one writes nothing |
| Journal.JournalTable.LinkBackup | src/backup/journal.rs:153-161 | Linking a backup changes only that field of that row |
| Journal.JournalTable.LinkAudit | src/backup/journal.rs:163-171 | Linking an audit row changes only that field of that row |
| Journal.JournalTable.Recoverable | src/backup/journal.rs:176-187 | The recovery list holds exactly the rows whose state still has a successor, in id order |
| Journal.RecoveryQueryIsNonTerminal | src/backup/journal.rs:51-66 | The SQL condition of the recovery query is the same as "the transition table still allows a move" |
| Journal.MovesGoForward | src/backup/journal.rs:51-66 | A row moves one stage on, or over the saved backup; it fails only before a commit is recorded and turns uncertain only between announcement and closing; nothing else |
| Journal.RecordsAreNeverTakenBack | src/backup/journal.rs:51-66 | Under any later attempts a recorded commit never turns into planned, backup or failed, and terminal rows never change |
| Lifecycle.JournalAttempts | src/sql/mysql.rs:565-678 | In every run with a crash, a drop or a deadline anywhere, and with any journal writes lost but the four that later ones build on, each attempted move is allowed; the one exception is the gate finalizing a DDL no-op |
| Lifecycle.AttemptsAreLegalIff | src/sql/mysql.rs:514-526 | Which journal writes must be reliable for that: exactly those at the DDL no-op, at the start of work, at the announcement and after the commit; for each of them a run with only this one lost and an illegal attempt |
| Lifecycle.EveryAttemptIsLegal | src/sql/mysql.rs:565-795 | Program counter and journal row stay in step along every such run, from any state in step |
| Lifecycle.NothingRunsUnchecked | src/sql/mysql.rs:565-735 | In every run, by the answers given: what needs a backup is announced or lands only after its capture was answered well, DDL only after its preflight was, and a write lands only if the server took the statement |
| Lifecycle.FailedCaptureStops | src/sql/mysql.rs:713-735 | After a failed capture no continuation announces or lands the mutation or reports success |
| Lifecycle.FailedPreflightStops | src/sql/mysql.rs:426-557 | The same after a failed preflight, and nothing lands after one that finds nothing to do |
| Lifecycle.ApprovalIsTrue | src/app/gate.rs:622-721 | A durable approved audit row means the mutation landed, or was a DDL no-op; DDL and admin statements have landed once they go on to COMMIT; a good ROLLBACK leaves no transaction open |
| Lifecycle.BackupIsLinkedIff | src/sql/mysql.rs:720-735 | With no journal write lost, a landed write has its backup linked, and its row moved on for it, exactly when the capture found rows; approved and done, it is finalized and linked to its audit row |
| Lifecycle.QuietWriteIsFinalized | src/app/gate.rs:664-674 | A run in which everything is answered well, to the closed row |
| Lifecycle.AdminIsFinalized | src/sql/mysql.rs:565-795 | The same for an admin statement outside a transaction |
| Lifecycle.FailedRollbackLeavesOpen | src/sql/mysql.rs:602-609 | A run in which the caller has its error and the transaction stays open, because ROLLBACK failed |
| Lifecycle.DroppedWorkIsLeftForRecovery | src/sql/mysql.rs:641-678 | A run in which the work is dropped after the deadline while its COMMIT takes effect: the caller has an error, and the row is listed for recovery as executing |
| Lifecycle.CrashStopsTheProgram | src/backup/journal.rs:176-187 | After a crash at any point the journal row, the audit row and the attempts stay as they are in every continuation |
| Lifecycle.ServerAbortIsFinal | src/sql/mysql.rs:602-609 | A write that has not landed when the server gives up its transaction never lands |
| Lifecycle.RecordsAreTrue | src/app/gate.rs:622-721 | For writes, even if journal writes are lost: failed means the mutation has not landed and never will, committed and finalized mean it has, finalized means the approved audit row is durable |
| Lifecycle.FailedStaysUnlanded | src/sql/mysql.rs:602-640 | A write recorded as failed does not land in any continuation |
| Lifecycle.CommittedIsOnRecordIff | src/sql/mysql.rs:565-678 | A landed write is on record as executing, committed, finalized or uncertain if and only if none of the three opening journal writes was lost, whatever else was; and then, without a durable approved audit row, it is in the recovery list or uncertain |
| Lifecycle.ErrorIsProofIff | src/sql/mysql.rs:603-676 | An error from the executor means for every run of a write, now and later, that nothing landed, if and only if it is neither the deadline nor an error in answer to COMMIT |
| Lifecycle.FailedRowIsRightIff | src/sql/mysql.rs:603-609 | For every kind of statement: a row that failed from a given state is right about the server in all runs if and only if that state is not mutation_executing |
| Lifecycle.TimeoutAfterRealCommit | src/sql/mysql.rs:641-678 | A run in which the caller gets a timeout error although the COMMIT took effect |
| Lifecycle.LostWriteHidesCommit | src/sql/mysql.rs:333-407 | A run in which one lost journal write leaves a landed mutation on record as planned |
| Lifecycle.DdlCanLandAndReadFailed | src/sql/mysql.rs:682-795 | A run in which a DDL statement took effect and is recorded as failed |
| Lifecycle.NoOpIsFinalizedInVain | src/app/gate.rs:664-674 | A run in which the gate tries to finalize a DDL no-op that the executor has closed as failed |
| SqlText.QuotedRoundTrip | src/backup/restore.rs:83-85 | A name printed with its quotes doubled reads back as itself, whatever follows that is not a quote |
| SqlText.IdentRoundTrip | src/backup/extractor.rs:52-54 | The same for backtick identifiers |
| SqlText.TargetsRoundTrip | src/sql/ddl.rs:128-141 | A printed list of schema-qualified tables reads back as that list |
| SqlText.RewriteNamesExactly | src/sql/ddl.rs:121-142 | The rewritten DROP exists exactly for a nonempty list of tables or views, and the server reads from it exactly that list, for any names |
| SqlText.MySqlStringRoundTrip | src/backup/restore.rs:99-102 | A printed string literal reads back as the same string under MySQL's rules |
| SqlText.SqliteStringRoundTripIff | src/backup/restore.rs:99-102 | The same text reads back under SQLite's rules exactly when the string has no backslash |
| RenamePlan.PreflightRename | src/sql/ddl.rs:189-248 | The preflight loop gives the verdict of the overlay, refusal reasons included |
| RenamePlan.OverlayAgreesIff | src/sql/ddl.rs:211-246 | After any feasible prefix the overlay and the real catalog agree about a name exactly when the name is not stale |
| RenamePlan.VerdictsAgree | src/sql/ddl.rs:189-248 | Without stale lookups preflight and server give the same verdict at the same rename |
| RenamePlan.StaleSplitsVerdicts | src/sql/ddl.rs:211-246 | With a stale lookup preflight and server never both accept |
| RenamePlan.PreflightAgreesIff | src/sql/ddl.rs:189-248 | For every chain and catalog accepted by one side: both accept if and only if no stale name is looked up |
| RenamePlan.OnceInEachRoleIsExact | src/sql/ddl.rs:189-248 | For chains in which each table is a source at most once and a destination at most once (swaps, cycles) the preflight's verdict is the server's |
| RenamePlan.RefusesRunnableChain | src/sql/ddl.rs:211-246 | a->t, b->a, a->c would run and is refused |
| RenamePlan.AcceptsFailingChain | src/sql/ddl.rs:211-246 | a->t, b->a, c->a is accepted and fails on the server |
| DropPlan.PreflightDrop | src/sql/ddl.rs:256-287 | The loop stops at the first unresolved name or failed query, and otherwise partitions the targets as its verdict says |
| DropPlan.ThoseAre | src/sql/ddl.rs:257-275 | The two lists hold exactly the targets found and not found; none is lost or misplaced |
| DropPlan.NoneMissing | src/sql/ddl.rs:276-287 | The missing list is empty exactly when every lookup found its table |
| DropPlan.OnlyPlannedTablesAreDropped | src/mcp/tools.rs:1354-1453 | For every interleaving with other sessions, an approved DROP that is contained removes only tables its plan found, and every refusal and no-op sends and removes nothing |
| DropPlan.RefusalSendsNothing | src/mcp/tools.rs:1498-1502 | Whatever comes before and after: once a query has failed, the user has declined, the gate has refused or the backup has failed, nothing is ever sent and nothing removed |
| DropPlan.SentWasApproved | src/mcp/tools.rs:1454-1510 | A statement that was sent was planned and retried, approved when the user was asked, passed by the gate and delivered, each at its stage |
| DropPlan.PlanAsksIff | src/mcp/tools.rs:1412-1450 | The plan is put to the user exactly when all targets were found or IF EXISTS is given, and what is approved is exactly what was found |
| DropPlan.CheckEndsIff | src/sql/mysql.rs:426-557 | The re-check fails exactly when a target is gone without IF EXISTS, and is a no-op exactly when all are gone with it |
| DropPlan.RewriteKeepsKind | src/sql/ddl.rs:121-142 | What is rewritten drops the same kind of object, and only tables and views are rewritten |
| DropPlan.ContainedIff | src/sql/mysql.rs:682-702 | Exactly which statements remove only what their plan found in all interleavings: all but the drop of a schema whose names resolve, and those with a hidden name that can be sent as written and is not among the tables that were looked up |
| DropPlan.StrayNameIsNotContained | src/policy/classifier.rs:293 | For every statement with such a name in an executable comment, a run in which it removes a table created after the approved plan |
| DropPlan.StraysInPlace | src/policy/classifier.rs:293 | With the database in use unchanged, a statement strays exactly when one of its hidden names resolves to no target |
| DropPlan.SchemaDropIsNotContained | src/sql/mysql.rs:426-465 | For every such schema drop, a run in which it removes a table created after the approved plan |
| DropPlan.LateTableSurvives | src/sql/mysql.rs:426-557 | A table the plan did not find survives every later step of a contained statement |
| DropPlan.QuietCheckSendsThePlan | src/sql/mysql.rs:426-557 | If the re-check sees what the plan saw, a contained statement is sent with exactly the planned tables (none, for an index or a role); none planned is a no-op; the only refusal is an object type that cannot be rewritten |
| AuditChain.AuditLog.WriteEntry | src/audit/mod.rs:60-141 | Appends one row, hashed over its payload and the last row's hash if chaining is on |
| AuditChain.AuditLog.VerifyChain | src/audit/mod.rs:287-337 | The loop computes the scan, early exits included |
| AuditChain.HonestLogVerifies | src/audit/mod.rs:251-338 | After any appends, chained or not, and any expiry of oldest rows the verifier accepts and counts exactly the surviving chained rows |
| AuditChain.LogHoldsWhatWasWritten | src/audit/mod.rs:60-141 | After any events the rows are, in order, exactly the entries written and not expired, with their numbers, payloads and other columns, hashed exactly where chaining was on, each over the row before |
| AuditChain.EditIsReportedIff | src/audit/mod.rs:295-328 | Changing one payload of an accepted log is reported, at that row, if and only if the row is chained and the payload differs |
| AuditChain.AcceptedIsLinked | src/audit/mod.rs:295-328 | Acceptance of a fully chained log means every row covers its payload and points at its predecessor |
| AuditChain.SameHashSamePast | src/audit/mod.rs:48-55 | Linked logs that end in one hash agree row by row |
| AuditChain.HeadHashFixesHistory | src/audit/mod.rs:48-55 | Two accepted linked logs with the same last hash have the same payloads row by row |
| AuditChain.SurvivorsAreReportedIff | src/audit/retention.rs:112-120 | However appends and losses of rows alternate, the verifier stops at the first row that stands beside one it does not belong to, and accepts the log if there is none |
| AuditChain.SurvivorsAreAsWritten | src/audit/retention.rs:112-120 | However writing and losing alternate, the rows left are the entries written and not lost, unchanged |
| AuditChain.OnePieceIff | src/audit/retention.rs:112-120 | A fully chained log that loses rows is accepted if and only if one contiguous piece is left |
| AuditChain.InteriorDeletionIsReportedIff | src/audit/retention.rs:112-120 | Deleting one range from the middle is reported at the row after the gap exactly when that row points elsewhere and both neighbours are chained |
| AuditChain.UnhashedEditIsNeverReported | src/audit/mod.rs:259-276 | Editing the columns outside the payload changes nothing about the verdict on any log |
| AuditChain.ReplacementIsAcceptedIff | src/audit/mod.rs:295-328 | Any row whatever in the place of row i of an honest log is accepted if and only if it passes after the row before and the row behind passes after it |
| AuditChain.EmptiedRowIsAccepted | src/audit/mod.rs:309-316 | With both hash columns empty every content passes, in every place of every honest log |
| AuditChain.ChainedStandIn | src/audit/mod.rs:295-328 | Inside a fully chained log, a row with both hash columns filled passes exactly when payload, pointer and hash are the old ones |
| AuditChain.EveryGapShows | src/audit/retention.rs:112-120 | In a fully chained log every interior deletion is reported |
| Mrtr.PendingStore.Issue | src/mcp/mrtr.rs:141-154 | Appends the approval and drops the oldest beyond 32 |
| Mrtr.PendingStore.Take | src/mcp/mrtr.rs:172-223 | Consumes and tombstones a token before any check on it; the answers come in the code's order |
| Mrtr.TombstonesAreTheLast256 | src/mcp/mrtr.rs:195-206 | The tombstones are exactly the last 256 consumed tokens in order, and at most 32 approvals are pending |
| Mrtr.ReplayIsRefused | src/mcp/mrtr.rs:172-223 | Once an echo has found its token every later echo of it is answered consumed, or unknown after 256 more |
| Mrtr.SucceedsAtMostOnce | src/mcp/mrtr.rs:172-223 | Each token succeeds at most once |
| Mrtr.SuccessIsBound | src/mcp/mrtr.rs:207-223 | Success means the token was issued with the same tool, connection, revision and digest and has not expired |
| Mrtr.StaysPending | src/mcp/mrtr.rs:141-154 | An untaken, unexpired approval with fewer than 32 later issues stays pending |
| Mrtr.PendingTokenIsFound | src/mcp/mrtr.rs:165-223 | Such a token is always found: the echo succeeds exactly when tool, connection, revision and operation are those of the approval, and otherwise the first of these that differs, in this order, gives the answer |
| Mrtr.ExpiredNeverSucceeds | src/mcp/mrtr.rs:203-205 | From its expiry on an approval never succeeds, and while it is stored the answer says so |
| SessionGrants.CanonicalIff | src/approval/mod.rs:71-86 | Two printed keys are equal exactly when connection, category and printed tables are, whatever the names |
| SessionGrants.PrintedIff | src/approval/mod.rs:77-84 | Without commas tables print alike exactly when the multisets of their dotted names agree |
| SessionGrants.KeyIsItsOwnIff | src/approval/mod.rs:71-86 | Among all scopes, a key is shared with no other if and only if it is for at most one table with no dot in its names |
| SessionGrants.CommaFreeKeyIsItsOwnIff | src/approval/mod.rs:71-86 | Among scopes without commas, a key is shared with no other if and only if each of its dotted names has exactly one dot |
| SessionGrants.AnotherScope | src/approval/mod.rs:71-86 | For every other key, another scope with it: its whole list of tables read as one table, or its name split at another dot |
| SessionGrants.CommasCollide | src/approval/mod.rs:79-84 | With a comma in a name one table prints as two |
| SessionGrants.SortedIsUnique | src/approval/mod.rs:77-79 | A sorted list is determined by its multiset, so table order never matters |
| SessionGrants.JoinInjective | src/approval/mod.rs:79-84 | The joined list determines its parts if none is empty or holds a comma |
| SessionGrants.ApprovalEngine.GrantSession | src/approval/mod.rs:154-166 | Stores the grant under its printed key for 30 minutes |
| SessionGrants.ApprovalEngine.SessionCovers | src/approval/mod.rs:168-180 | Answers from the stored grant and removes it when it has run out |
| SessionGrants.ApprovalEngine.RevokeSessions | src/approval/mod.rs:182-199 | Removes exactly the matching grants and reports how many |
| SessionGrants.CoversIffLatestGrantHolds | src/approval/mod.rs:154-199 | In every history a request is covered exactly when the latest grant of its connection and category whose tables print alike is neither revoked nor expired |
| SessionGrants.CoveredByOwnGrantIff | src/approval/mod.rs:154-199 | Coverage is decided by the grants of exactly the request's own tables in all histories if and only if it is for at most one table with no dot in its names |
| SessionGrants.CommaFreeCoverageIff | src/approval/mod.rs:154-199 | In all histories without commas, if and only if each of its dotted names has one dot |
| SessionGrants.RevocationEndsCoverage | src/approval/mod.rs:182-199 | A revocation for a connection and a category, each or both left open, ends the coverage of exactly the requests of that connection and category, until they are granted anew, and changes no other's |
| SessionGrants.EmptyFilterRevokesAll | src/approval/mod.rs:182-199 | A revocation that names nothing leaves no grant |
| Transport.Caches.Lease | src/sql/ssh.rs:387-425 | Leases only a tunnel that is neither closed nor retired, and marks it used |
| Transport.Caches.AssignGeneration | src/sql/ssh.rs:666-671 | Hands out the counter and increments it |
| Transport.Caches.EvictByGeneration | src/sql/pool.rs:254-269 | Removes exactly the pools that ride the generation |
| Transport.Caches.Mark | src/sql/ssh.rs:271-272 | The first section of a retirement: the tunnel leaves the map and its generation drains, its pools stay |
| Transport.Caches.Retire | src/sql/ssh.rs:271-289 | When nothing comes in between, a retired tunnel leaves the map, its generation drains, its pools go |
| Transport.Caches.RetireOldest | src/sql/ssh.rs:458-472 | The victim is a least recently used tunnel |
| Transport.Caches.Sweep | src/sql/ssh.rs:431-457 | When nothing comes in between, the same connection's tunnels under another identity and the dead ones are retired |
| Transport.Caches.Publish | src/sql/ssh.rs:429-481 | When nothing comes in between: after sweeping, just as many least recently used tunnels are retired as make room for the new one |
| Transport.PublishIsAPath | src/sql/ssh.rs:429-481 | That undisturbed publication is one of the sequences of lock sections of the state machine |
| Transport.Caches.FindPool | src/sql/pool.rs:174-182 | Finds a pool only under its exact configuration and credential |
| Transport.Caches.PublishPool | src/sql/pool.rs:216-238 | An equal pool published meanwhile wins, another credential's pool is superseded, a full cache refuses |
| Transport.CachesStayBounded | src/sql/pool.rs:145-238 | In every interleaving of the lock sections, those on pools between the steps of a publication included, at most 8 tunnels and 16 pools |
| Transport.GenerationsIncrease | src/sql/ssh.rs:666-671 | Assigned generations strictly increase |
| Transport.LeaseSucceedsIff | src/sql/ssh.rs:387-425 | In every run a lookup is answered exactly when a tunnel is cached for the identity and its session has not closed, and then with that tunnel |
| Transport.ClosedIsNeverLeased | src/sql/ssh.rs:387-425 | Once its session has closed a tunnel is never leased |
| Transport.OnlyTheLongestUnusedGoes | src/sql/ssh.rs:458-472 | In every run a live tunnel of another connection or the same identity is retired only when the cache is full, and then no other was leased out or published longer ago |
| Transport.RetiredIsNeverLeased | src/sql/ssh.rs:387-481 | A retired generation is never leased or published again |
| Transport.PoolIsTheCallersOwn | src/sql/pool.rs:118-238 | Every pool handed out was opened for the caller's own configuration, tunnel generation and credential |
| Transport.PoolIsFoundIff | src/sql/pool.rs:174-182 | In every run a lookup finds a pool exactly when one is cached for the configuration and the credential |
| Transport.OnePoolIsShared | src/sql/pool.rs:216-238 | In every run a publisher gets the pool cached for its configuration and credential if there is one, is refused exactly when there is none and sixteen others are cached, and otherwise has its own cached; the rest of the cache stays |
| Transport.RetiredPoolsCameLate | src/sql/ssh.rs:271-289 | In every interleaving a cached pool on a retired generation was published after the retirement, or its eviction is pending |
| Transport.PendingEvictionRun | src/sql/ssh.rs:271-273 | A run in which a caller is handed a pool on a retired generation, between the mark and the eviction |
| Transport.LateLeaseholderRun | src/sql/pool.rs:216-238 | A run in which a pool published late stays cached on a retired generation |
| Transport.LeavesUnretiredIff | src/sql/ssh.rs:473-481 | A step that takes a generation out of the map retires it, unless it publishes over a live tunnel of the same identity, and then the pools on it stay cached |
| Transport.UnretiredIff | src/sql/ssh.rs:429-481 | Along every run a generation that left the map is not retired if and only if it was overwritten |
| Transport.OverwrittenRun | src/sql/ssh.rs:429-481 | Such a run exists |
| ObjectGraph.Collector.AddTableFactor | src/policy/classifier.rs:438-468 | One table factor, recursion included, changes the collector as the specification walk does |
| ObjectGraph.Collector.AddTableWithJoins | src/policy/classifier.rs:470-475 | A FROM item with its joined tables |
| ObjectGraph.Collector.DoQuery | src/policy/classifier.rs:477-497 | A query: lock, CTE names and bodies, ORDER BY, body |
| ObjectGraph.Collector.DoSetExpr | src/policy/classifier.rs:499-543 | A SELECT with all its clauses, a nested query, a set operation |
| ObjectGraph.Collector.DoExpr | src/policy/classifier.rs:549-727 | An expression and the subqueries in it |
| ObjectGraph.Collector.DoFunctionArguments | src/policy/classifier.rs:729-765 | Function arguments: none, a query, or a list with ORDER BY |
| ObjectGraph.QueryFits | src/policy/classifier.rs:477-497 | From any collector state: what a query adds about one table, its name and locking is decided by what is met in it |
| ObjectGraph.CollectsWhatOccurs | src/policy/classifier.rs:427-770 | A table is collected exactly when it is met, at any depth, before any declaration of its bare name, hence exactly when it is met if no CTE takes the name; locking exactly when some query met locks; the CTE names are exactly those met |
| ObjectGraph.AllAreCollectedIff | src/policy/classifier.rs:427-770 | Over the whole tree, unwalked positions included: what is collected occurs, and every occurring table is collected if and only if every one is met early |
| ObjectGraph.UnwalkedPartsDoNotCount | src/policy/classifier.rs:477-765 | Queries that differ only in the parts passed over, at any depth, are collected alike |
| ObjectGraph.TableBodyIsNotCollected | src/policy/classifier.rs:540-541 | SELECT ... FROM a UNION TABLE secret reads secret and does not collect it |
| ObjectGraph.Collect | src/policy/classifier.rs:427-770 | The collector run from its empty state collects exactly the tables met early |
| ObjectGraph.JoinConditionsAreNotWalked | src/policy/classifier.rs:470-475 | Any joins collect the same under any conditions |
| ObjectGraph.CteHidesQualifiedTable | src/policy/classifier.rs:438-444 | A qualified table hidden by a CTE of the same bare name occurs and is not collected |
| Resolver.ResolveStatement | src/policy/resolver.rs:155-306 | The loops give a resolution: contributions in order, first refusal, strictest action with the first table that has it, distinct databases, baseline when nothing is asked for |
| Resolver.Tally.Consider | src/policy/resolver.rs:83-141 | One object adds its contribution, or its refusal, and keeps the running strictest |
| Resolver.StrictestWins | src/policy/resolver.rs:155-306 | The action is at most `a` if and only if no table the statement reads, locks or mutates is stricter than `a`, none is unresolved, and there is no file access |
| Resolver.OrderDoesNotMatter | src/policy/resolver.rs:218-265 | Statements with the same tables, in any order and with any duplicates, get the same action |
| Resolver.LimitsFollowOrderIff | src/policy/resolver.rs:133-139 | For a statement that is not refused: all orders and repetitions of its tables give the same limits if and only if its deciding tables have the same, which are the strictest among those read or, failing these, among those changed |
| Resolver.DropOrderDecidesRowCap | src/policy/resolver.rs:133-139 | DROP TABLE d.a, d.b and DROP TABLE d.b, d.a run under different row caps |
| Resolver.OneReadSettlesLimits | src/policy/resolver.rs:218-265 | One strictest table read settles the limits, whatever the tables changed say, since reads come first |
| Resolver.ResolutionExists | src/policy/resolver.rs:155-306 | Every statement has a resolution |
| Resolver.AllowNeedsTheBaseline | src/policy/resolver.rs:42-58 | A statement is allowed exactly when the baseline without rules allows it and no governing rule tightens it |
| Resolver.ElevationAsks | src/policy/resolver.rs:42-58 | A statement a rule loosened is never allowed silently, and some contribution shows the loosening |
| Resolver.ExactShadowsWildcardIff | src/policy/resolver.rs:61-80 | The code departs from the documented order exact, wildcard, baseline exactly when an exact rule silent about the category shadows a wildcard rule that would decide otherwise |
| Resolver.MergedPolicySaysTheAction | src/policy/model.rs:133-169 | The merged policy reported with a table agrees with the table's action for every category, except exactly for elevations, where it says allow and the action is confirm |
| Resolver.MergingLaws | src/policy/model.rs:133-169 | A silent rule changes nothing, a full one decides every field, and two rules merge like the one that joins them |
| Resolver.DatabasesAreSorted | src/policy/resolver.rs:311-331 | The databases considered are exactly the targets, or else the default one, sorted and each once |
| Resolver.ResolveDatabases | src/policy/resolver.rs:311-388 | The per-database resolution over the sorted distinct databases |
| Resolver.DatabaseBounds | src/policy/resolver.rs:311-388 | The per-database action is at most `a` if and only if every target database's is |
| Resolver.MigrateRules | src/config/migrate.rs:173-181 | Migration yields one wildcard rule per database policy, unchanged, and nothing else |
| Resolver.MigrationKeepsTheAction | src/config/migrate.rs:173-181 | With wildcard rules only, a fully qualified statement of one category gets the strictest per-database action |
| UpsertText.ValueRoundTrip | src/backup/restore.rs:94-102 | NULL, numbers and strings read back as themselves, strings under SQLite with backslashes doubled |
| UpsertText.DigitsRoundTrip | src/backup/restore.rs:98 | A printed number reads back as that number |
| UpsertText.ValuesRoundTrip | src/backup/restore.rs:264-268 | A printed VALUES list reads back value by value, commas and parentheses in texts included |
| UpsertText.UpsertRoundTrip | src/backup/restore.rs:247-276 | The whole printed statement reads back as the upsert of that row into that table, every column set from its own new value |
| Extractor.Qualifiers | src/backup/extractor.rs:243-256 | The table names through which columns are assigned, each as written |
| Extractor.UpdateSpec | src/backup/extractor.rs:232-295 | The loops list the tables named by two-part targets, ignoring case, or the first table if there is no such target; whole tables only without WHERE and joins |
| Extractor.Find | src/backup/extractor.rs:371-375 | The first table of that name, ignoring case |
| Extractor.DeleteSpec | src/backup/extractor.rs:319-400 | The loops list the explicit targets, with the database FROM gives them, or else all tables; the query names the alias and drops it from FROM |
| Extractor.WhatIsSaved | src/backup/extractor.rs:232-400 | For every statement on one table that the server accepts: which have no backup, which list another table, which ask a query the server refuses, and that all others save rows of their own table under its name |
| Extractor.SavedRightIff | src/backup/extractor.rs:232-400 | A statement saves its own rows if and only if it uses no alias but the table's name, or has no WHERE and, for an UPDATE, assigns through no alias unlike the name or, for a DELETE, names no target before FROM |
| Extractor.AliasedUpdateSavesNothing | src/backup/extractor.rs:243-293 | UPDATE users u SET u.name = 'x' WHERE u.id = 1 is accepted and has no backup |
| Extractor.AliasedDeleteSavesAnother | src/backup/extractor.rs:350-379 | DELETE u FROM users u is accepted and saves all rows of u |
| Extractor.SqliteSavesItsOwn | src/backup/extractor.rs:232-400 | On SQLite no accepted statement goes without a backup or saves another table |
| Extractor.NamedTablesAre | src/backup/extractor.rs:258-266 | Of several tables exactly those are kept whose own name some two-part target uses, ignoring case, in the order of FROM |
| Extractor.UpdateSavesIff | src/backup/extractor.rs:243-293 | For every UPDATE of different tables, the table of an assigned column is saved if and only if some target uses its own name, or no target names a table and it is the first |
| Extractor.BareColumnIsNotSaved | src/backup/extractor.rs:243-266 | UPDATE a JOIN b SET a.x = 1, y = 2 changes b and saves only a |
| RestoreGate.StripComments | src/policy/classifier.rs:95-120 | The loop strips comments as the specification does, inside quotes too |
| RestoreGate.SkipBlock | src/policy/classifier.rs:100-106 | The place behind the first end of a block comment, or the end of the text |
| RestoreGate.SkipLine | src/policy/classifier.rs:107-112 | The next line end, or the end of the text |
| RestoreGate.RunningOffIsNoUpsert | src/policy/classifier.rs:95-120 | No text with a comment that runs to its end parses as an upsert once stripped, whatever the text |
| RestoreGate.ParsesIffNoOpener | src/policy/classifier.rs:95-120 | For any names and texts in which no comment ends, the statement parses if and only if none opens |
| RestoreGate.ParsesIff | src/policy/classifier.rs:95-120 | For plain names and any values, the statement parses if and only if every comment that opens in a text ends in it or a later one |
| RestoreGate.StripsToStatement | src/policy/classifier.rs:95-120 | Then the stripped statement is the statement of the stripped values |
| RestoreGate.StatementIsOne | src/policy/classifier.rs:122-153 | A printed statement is not taken for several unless backslashes and semicolons come together in it |
| RestoreGate.NamesFilesIff | src/policy/classifier.rs:777-780 | A printed statement is taken for file access if and only if one of its names or texts contains one of the three phrases |
| RestoreGate.RowAdmittedIff | src/mcp/tools.rs:2281-2325 | Exactly which rows pass the gate under plain names: the comments end, the table may be written, no name or stripped text names files, and the statement does not look like several; otherwise only what looks like a locking read |
| RestoreGate.HashDoesNotParse | src/policy/classifier.rs:95-120 | A row with the text C# does not parse, under any plain names |
| RestoreGate.HashIsRefused | src/mcp/tools.rs:2281-2325 | Under plain names that do not say "lock in share mode" it is refused, whatever the policy |
| RestoreGate.BackslashHidesQuote | src/policy/classifier.rs:122-153 | A text that ends in a backslash beside one with a parenthesis and a semicolon is taken for several statements |
| Undo.CaptureRows | src/backup/mod.rs:291-345 | Abort refuses exactly what exceeds a cap; otherwise exactly the first rows up to the row cap are kept and truncation is reported exactly |
| Undo.PlanRestore | src/backup/restore.rs:242-279 | One upsert per captured row over the columns of the first row |
| Undo.OneStatement | src/backup/restore.rs:242-271 | Executing one planned statement stores exactly that row under its key, whether or not the key exists |
| Undo.PlanPutsRows | src/backup/restore.rs:298-324 | Executing a plan overlays the table it names with the captured rows, never fails if that table is there, and changes no other |
| Undo.PlanLeavesOthers | src/backup/restore.rs:298-324 | Whatever a plan meets, it changes at most the table it names |
| Undo.PlanAdmittedIff | src/mcp/tools.rs:2299-2325 | A plan passes the gate exactly when each of its rows does |
| Undo.SavedIff | src/sql/mysql.rs:905-960 | Under Abort an accepted statement with a backup is saved if and only if its query takes the limit, finds its table and lists no more than both caps allow; in every other case it is refused and the server is unchanged |
| Undo.SameTableIff | src/sql/mysql.rs:988-992 | The backup names the changed table exactly when, on MySQL, the statement did not name a database other than the one in use and, on SQLite, the table is in the database in use |
| Undo.RestoreIsExactIff | src/backup/restore.rs:242-279 | After any change, restoring captured rows gives the old table if and only if the change added no key and every row it touched was captured |
| Undo.UndoIsExactIff | src/mcp/tools.rs:2024-2040 | Undo of a DELETE or key-preserving UPDATE gives the changed table back if and only if every matched row was left as it was, or captured under the name of its own table in a plan that passes the gate; then everything else is as before |
| Undo.WhatWasSaved | src/sql/mysql.rs:713-735 | Under Abort a statement that ran saved nothing, all rows of another table, or every pre-image row of its own, within both caps |
| Undo.AbortUndoIff | src/sql/mysql.rs:713-735 | For every accepted statement on one MySQL table under Abort, run and undone: it ran without a capture exactly as an UPDATE through an alias unlike the name, and in the end the table is as before if and only if it was refused, nothing was changed, or its own rows were saved, no other database was named and all saved rows pass the gate |
| Undo.TruncateUndoIff | src/backup/mod.rs:291-345 | Under Truncate every capture is taken; not truncated, it brings the table back, and truncated, exactly if every row beyond the cap was left as it was or is among those before it |
| Undo.AliasedUpdateStays | src/sql/mysql.rs:714 | The aliased UPDATE runs on every server, whatever the caps, and what it changed stays |
| Undo.HashIsNotRestored | src/mcp/tools.rs:2281-2325 | A deleted row that reads C# keeps the whole table from coming back |
| Undo.OtherTableIsOverwritten | src/sql/mysql.rs:988-992 | If the backup names another table of that shape, the captured rows are written over it, provided they pass the gate, and it is left alone otherwise |
| Undo.UndoOverwritesAnotherTable | src/sql/mysql.rs:988-992 | DELETE FROM other.users with app in use, undone into app.users |
| Undo.SqliteDeleteUndoIff | src/backup/mod.rs:258-262 | On SQLite a fully captured DELETE is undone if and only if nothing was deleted, or the table is in the database in use, all rows pass the gate and no deleted text holds a backslash |
| KnownHosts.TranslateWithLoop | src/sql/known_hosts.rs:104-119 | The loop prints the translation between its anchors |
| KnownHosts.RecIsGlob | src/sql/known_hosts.rs:126-153 | The matcher run on a translated pattern follows the pattern character by character |
| KnownHosts.GlobIsMatches | src/sql/known_hosts.rs:103-119 | Following a pattern character by character is the same as filling its wildcards with texts |
| KnownHosts.MatcherDecidesGlob | src/sql/known_hosts.rs:103-153 | For patterns without question marks translation and matcher decide exactly whether some filling of the stars gives the host |
| KnownHosts.RecIsMeant | src/sql/known_hosts.rs:126-153 | For every pattern the matcher decides a computable star pattern, in which a question mark has become a dot or the character behind it |
| KnownHosts.QuestionMarksFail | src/sql/known_hosts.rs:107-108 | For every pattern, matcher and meaning agree on all hosts if and only if there is no question mark |
| KnownHosts.QuestionMarkFails | src/sql/known_hosts.rs:107-108 | For every pattern with one, a host on which they disagree |
| KnownHosts.MatchesPattern | src/sql/known_hosts.rs:85-123 | The whole decision: `[host]:port` needs its own port, any other pattern port 22, and the rest must equal or match |
| KnownHosts.PortsOfPatterns | src/sql/known_hosts.rs:85-101 | A pattern without a bracket in front is for port 22, `[name]:port` for exactly that port and name, and an unclosed bracket for every port |

## Left out

- LineLimits.Transport: the default limit and the notices printed for dropped lines are not modelled; `limit` is any number, and an I/O error leaves the adapter ready for the next poll as in the code.
- Lifecycle.RecordsAreTrue: stated for writes on transactional engines, where ROLLBACK takes a failed statement back (on others a failed write can have landed), that need a backup, which are all the classifier lets through; DDL and admin statements commit by themselves, and `FailedRowIsRightIff` says what their rows mean.
- Lifecycle: what the pool does with a connection whose ROLLBACK failed; the model leaves its transaction open until the server ends it.
- Lifecycle: policy decision, one-shot consumption and revalidation before the executor starts; KILL QUERY and the connection check after it (the transaction's end is a step of the server).
- SqlText.MySqlStringRoundTrip: reads literals by the default SQL mode; under NO_BACKSLASH_ESCAPES MySQL reads them as SQLite does.
- DropPlan: TRUNCATE shares the preflight and is not distinguished; the backup taken before the DROP is one step that may fail; that DROP SCHEMA takes one name only. A server drops all named tables or none, which MariaDB does not promise for several tables. What an executable comment holds beside further names is not modelled.
- DropPlan.QuietCheckSendsThePlan: the default database at execution is taken to be the plan's.
- AuditChain.HonestLogVerifies: expiry deletes the oldest rows only; for the retention job's deletes by category see `SurvivorsAreReportedIff`, and for the `backup_id` nulled when backups are deleted see `EditIsReportedIff`.
- AuditChain: the canonical JSON payload of a row is one string; search, redaction and the epoch row written after retention.
- Mrtr: encoding of tokens and the operation digest are taken as given values.
- SessionGrants.CanonicalIff: connection names with the separator U+0001.
- SessionGrants: one-shot grants by digest (grant_once, consume_once).
- Transport: the printed keys of tunnels and pools are structured values; a connection name that contains the separator U+0001 is outside the model. The in-flight guard that coalesces concurrent openings, so that the runs include more openings than the code makes, and `invalidate_all`, which empties the pool cache.
- ObjectGraph: the syntax tree is reduced; an expression shape whose parts are walked is one constructor, and every unwalked part is a list of expressions, tables or factors.
- ObjectGraph: the statement classifier around the walk (UPDATE, DELETE and DDL targets, string checks for file access).
- Resolver.MigrationKeepsTheAction: for rules that migration can produce, and statements of one category; a locking read asks for two categories and the old resolution for one.
- Resolver: rendering and parsing of rule keys, validation of bounds, presets.
- Extractor.WhatIsSaved: statements on one table; for UPDATEs of several tables `UpdateSavesIff` says which are saved. Join conditions and USING, LIMIT and ORDER BY, and names of more than two parts in FROM are not modelled; the two loops take any list of tables. Names are compared letter by letter on the server; one that ignores the case of aliases answers more queries.
- RestoreGate.RowAdmittedIff: the policy is given as which tables may be written and whether reading is allowed at all; an approval that a restore may ask for is taken to be given. Statements other than upserts do not occur in a plan of row backups, and the early answers for pragmas, transaction and admin keywords do not concern texts that begin with INSERT. Trimming drops blanks, tabs and line ends, not other Unicode spaces.
- Undo.AbortUndoIff: one table, with one key and no other unique index, updates that keep the key, and values that are NULL, integers or text; floats, binary values, several tables, TRUNCATE, REPLACE and INSERT hints are not modelled. Names are compared letter by letter; servers that ignore case are not modelled. Whether the capture query takes the limit is a parameter; where it does not, the statement is refused.
- Undo.PlanLeavesOthers: triggers and foreign keys that reach into other tables.
- Undo.CaptureRows: the capture query's text and its LIMIT rewrite are replaced by the answer they ask for; lock clauses are not modelled, the rows do not change between capture and mutation.
- Undo.PlanPutsRows: the trailing semicolon and blanks that the SQLite executor trims are read either way; counts of affected rows are left out.
- KnownHosts: hashed entries, markers, key comparison, parsing of the file.
- Sockets, TLS, the SSH handshake, the database drivers, SQL parsing beyond quoted names and literals, the GUI, the command line and the platform's key store.
