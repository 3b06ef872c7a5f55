# Verified model of the change-management core

This project models the state-changing core of the change-management system in Dafny and
proves what it guarantees over every input, every run of statements or every interleaving.
`dafny verify dfyconfig.toml` checks all of it.

## What is modelled

- **The workflow store** (`lib/db.ts`): definitions, versions, reviews, nodes, edges, role
  bindings, instances, node attempts, tasks and events, with the keys, foreign keys, cascades
  and PL/pgSQL triggers that guard them. `WorkflowTables` runs each INSERT, UPDATE and DELETE
  imperatively, trigger by trigger and row by row; `WorkflowStatements` says what each statement
  amounts to; `WorkflowEffects` says, without it, when each statement commits and which rows it
  leaves; `WorkflowInvariants`, `WorkflowTheorems`, `WorkflowNumbers` (with `RowNumbers` and
  `Numbering`) and `WorkflowRevisions` prove what all runs keep. Every statement method commits
  exactly when its statement does, leaves exactly that database, and carries both the rules and
  its effect in its contract (`Governed`).
- **The governed apply loops** (`lib/client-config-db.ts`): staged configurations
  (`ConfigApply`, with `ConfigAccounts` for what every account holds, `ConfigHistory` and
  `ConfigReprocessing`), lookup values (`LookupApply`) and portfolio metadata with its
  validator (`MetadataLifecycle`). A transaction behaves as PostgreSQL's does: the first failing
  statement poisons it, every later statement fails, and nothing is committed.
- **Onboarding** (`lib/onboarding-staging-db.ts`): the staging table, the one transaction and the
  separate mark-failed write (`Onboarding`).
- **The CSV export** (`lib/export.ts`) with a reader for RFC 4180 section 2, separator `;`
  (`CsvExport`).
- **The uniqueness check** (`lib/use-code-uniqueness.ts`) as a protocol of edits, effects, timers
  and replies in any order (`CodeUniqueness`).
- **The migration pipeline** (`lib/client-config-migration.ts`, `lib/portfolio-config.ts`):
  cleansing, deduplication, validation, reference collection and rollback plan (`Migration`,
  `MigrationRun`, `MigrationValues`, `FirstUse`, `PrimaryAccountId`).
- **The small caches and counters**: duplicate suppression (`ErrorDedup`) and change references
  (`References`).

Where the source loops or updates in place, the model is a method with the same branches, proved
against a specification function; the lemmas are about those functions.

## How to read it

`Step`, `ApplyRow`, `ApplyRows`, `ApplyAt` and the like are the specifications: what one
statement, one staged row or one call does to the tables. Beside each of them stands an
independent account of the same effect, column by column and row by row (`Commits` and `Leaves`,
`Settles`, `Applies`, `ShowsRequest`, `Becomes`), and a lemma that the two agree. Clocks, parsed
dates, the payload schema, input validation and the lookup tables enter as parameters (`now`,
`parseDate`, `accepts`, `valid`, `refs`), so the theorems hold for any of them. Surrogate ids are
replaced by the unique codes they stand for. Text is ASCII for trimming and case.

## Where the code and its documentation differ

The model follows the code.

- `portfolio_configuration.change_request_id` is UNIQUE (`db/clientconfig_schema.sql:161`), while
  `lib/client-config-data-model.ts:133` lists it as a plain foreign key. A committed change can
  therefore write its creates and updates to one account only (`OneAccountPerChange`).
- A CREATE over an active id is skipped, and over an inactive id it violates the primary key and
  aborts the run (`lib/client-config-db.ts:1819-1881`); it never closes out and re-inserts.
- Closing out or retiring at a date before the row's start violates `chk_pc_dates` and aborts the
  run (`lib/client-config-db.ts:1933-1939`, `2010-2015`; `EndingBeforeStartAborts`).
- Re-processing a change is idempotent for every batch that staging accepts
  (`StagedBatchesAreIdempotent`), but not for every batch the apply loop would take
  (`ReprocessingChangesIff`): staging is what asks that targets exist
  (`lib/client-config-db.ts:1247-1279`), and the loop does not ask again.
- The lookup loop reports an existing value as skipped but stores it as failed
  (`lib/client-config-db.ts:1582-1586`). Its catch block writes to the aborted transaction, so a
  failing INSERT ends the call with an exception (`1657-1661`).
- The metadata validator accepts a blank MSA code, which is staged as an empty string that the
  column refuses (`AcceptedChangeAppliesIff`); it accepts retiring a code that does not exist,
  which then applies without effect (`RetiringUnknownCodeDoesNothing`); and a parent that is no
  longer active at apply time is dropped silently (`StaleFactsLoseTheParent`).
- The write that marks an onboarding failed can itself be refused, and the row then keeps its
  status (`FailureIsRecordedIff`).
- In a migration the default classifications override existing ones of the same name
  (`DefaultsWin`), a client code cut from the portfolio code is not trimmed
  (`CleansingTwiceIff`), and an invalid first record takes a later valid one of the same key
  with it (`FirstRecordDecides`).
- Reference suffixes are distinct within a millisecond, not across milliseconds
  (`NextMillisecondRepeats`).

## Model

| member | source | states |
|---|---|---|
| WorkflowTables.WorkflowStore.ContentGuardRaises | lib/db.ts:1747-1762 | The guard raises exactly when the row leaves or enters a published version; a version row that is already gone has no status and does not raise. |
| WorkflowTables.WorkflowStore.NextVersionNumber | lib/db.ts:1726-1733 | The number assigned to a new version is one more than the largest of its definition, found by scanning the rows. |
| WorkflowTables.WorkflowStore.NextAttemptNumber | lib/db.ts:1805-1812 | The attempt number is one more than the largest of the same instance and node. |
| WorkflowTables.WorkflowStore.NextEventNumber | lib/db.ts:1813-1820 | The sequence number is one more than the largest of the instance. |
| WorkflowTables.WorkflowStore.CommitWrite | lib/db.ts:1407-1653 | A write stays exactly when the tables it leaves meet every declared key, foreign key and check that is modelled; otherwise the tables are as before. |
| WorkflowTables.CascadeNodes | lib/db.ts:1469-1504 | The node cascade of a version raises exactly when a node attempt restricts one of its nodes, and otherwise removes exactly the version's nodes and the edges at them. |
| WorkflowTables.DeleteVersionRow | lib/db.ts:1734-1779 | Deleting one version row fires its trigger and its cascades in order: it raises exactly when the version is published, reviewed, run by an instance, or its content is restricted, and otherwise leaves the tables without the version and its content. |
| WorkflowTables.DeleteVersionRows | lib/db.ts:1435-1520 | Deleting a definition's versions one after the other raises exactly when one of them is held in the tables as they were before the cascade began, and otherwise removes all of them and their content. |
| WorkflowTables.CascadesRemoveContent | lib/db.ts:1486-1520 | The cascades that reach edges through their version, their source and their target together remove exactly the version's edges and bindings. |
| WorkflowTables.WorkflowStore.EdgeCascadeRaises | lib/db.ts:1486-1504 | The cascade from a node to its edges raises exactly when the guard refuses one of them, each judged by its own version. |
| WorkflowTables.WorkflowStore.HasEvents | lib/db.ts:1638-1653 | Finds an event of the instance or of one of the attempts that its delete would take along. |
| WorkflowTables.WorkflowStore.InsertDefinition | lib/db.ts:1407-1434 | Refused when the id or the tenant, unit and slug are taken. |
| WorkflowTables.WorkflowStore.UpdateDefinition | lib/db.ts:1407-1434 | Refused when a version would lose its definition or the scope slug is taken; no row, no effect. |
| WorkflowTables.WorkflowStore.DeleteDefinition | lib/db.ts:1407-1520 | Takes all its versions along, each through its own trigger and cascades, or raises for any one of them and keeps everything. |
| WorkflowTables.WorkflowStore.InsertVersion | lib/db.ts:1435-1456 | Ignores the number it was given and stores the definition's next one. |
| WorkflowTables.WorkflowStore.UpdateVersion | lib/db.ts:1734-1746 | Raises on a published row, whatever it sets; a draft's revision counts up by one, and it may become published. |
| WorkflowTables.WorkflowStore.DeleteVersion | lib/db.ts:1734-1779 | Raises when published, reviewed, run or restricted; otherwise takes its content along. |
| WorkflowTables.WorkflowStore.InsertReview | lib/db.ts:1457-1468 | Refused when the id is taken or the version does not exist. |
| WorkflowTables.WorkflowStore.UpdateReview | lib/db.ts:1763-1773 | Raises if the row exists and has no effect if not. |
| WorkflowTables.WorkflowStore.DeleteReview | lib/db.ts:1763-1773 | Raises if the row exists and has no effect if not. |
| WorkflowTables.WorkflowStore.InsertNode | lib/db.ts:1469-1485 | Raises into a published version; keys are unique per version. |
| WorkflowTables.WorkflowStore.UpdateNode | lib/db.ts:1747-1775 | Raises when the version left or the version entered is published, so no row moves in or out. |
| WorkflowTables.WorkflowStore.DeleteNode | lib/db.ts:1747-1775 | Raises in a published version, under an attempt, or when an edge it would take along is in a published version. |
| WorkflowTables.WorkflowStore.InsertEdge | lib/db.ts:1486-1504 | Raises into a published version or when an end is not a node of the edge's own version. |
| WorkflowTables.WorkflowStore.UpdateEdge | lib/db.ts:1747-1777 | Raises when the version left or entered is published. |
| WorkflowTables.WorkflowStore.DeleteEdge | lib/db.ts:1747-1777 | Raises in a published version. |
| WorkflowTables.WorkflowStore.InsertBinding | lib/db.ts:1505-1520 | Raises into a published version; role and group are unique per version. |
| WorkflowTables.WorkflowStore.UpdateBinding | lib/db.ts:1747-1779 | Raises when the version left or entered is published, or when a task would lose its binding. |
| WorkflowTables.WorkflowStore.DeleteBinding | lib/db.ts:1747-1779 | Raises in a published version or under a task. |
| WorkflowTables.WorkflowStore.InsertInstance | lib/db.ts:1795-1837 | Raises unless the version is published. |
| WorkflowTables.WorkflowStore.UpdateInstance | lib/db.ts:1795-1837 | Checks the version only when the statement sets that column; otherwise the row keeps the version it had. |
| WorkflowTables.WorkflowStore.DeleteInstance | lib/db.ts:1521-1589 | Takes attempts and tasks along; raises when an event of it or of its attempts is logged. |
| WorkflowTables.WorkflowStore.InsertAttempt | lib/db.ts:1541-1566 | Ignores the number it was given and stores the next one of the instance and node; refused beyond the row's own maximum. |
| WorkflowTables.WorkflowStore.UpdateAttempt | lib/db.ts:1541-1566 | May rewrite any column the keys and checks allow, its number included. |
| WorkflowTables.WorkflowStore.DeleteAttempt | lib/db.ts:1541-1589 | Takes its task along; refused under an event. |
| WorkflowTables.WorkflowStore.InsertTask | lib/db.ts:1821-1841 | Raises unless the binding is of the task's version; one task per attempt. |
| WorkflowTables.WorkflowStore.UpdateTask | lib/db.ts:1821-1841 | Checks the binding only when the statement sets it or the version; otherwise the row keeps both. |
| WorkflowTables.WorkflowStore.DeleteTask | lib/db.ts:1567-1589 | Always commits; a missing row is no error. |
| WorkflowTables.WorkflowStore.InsertEvent | lib/db.ts:1813-1843 | Appends with the instance's next number; refused on a used id or idempotency key. |
| WorkflowTables.WorkflowStore.UpdateEvent | lib/db.ts:1831-1847 | Raises if the row exists and has no effect if not. |
| WorkflowTables.WorkflowStore.DeleteEvent | lib/db.ts:1831-1847 | Raises if the row exists and has no effect if not. |
| WorkflowTheorems.StepIsLawful | lib/db.ts:1407-1848 | What the contract of every statement method carries: if the rules held before, they hold after, published versions keep row and content, reviews stay and the event log only grows. |
| WorkflowEffects.StatementEffect | lib/db.ts:1407-1848 | Where the rules hold, each of the thirty statements commits if and only if its one row fits beside the others, its triggers allow it and no row that stays refers to what it would take away; it then leaves exactly the row it writes, the rows it cascades to gone, and every other row of every table as it was. Every statement method carries this too. |
| WorkflowTheorems.StepKeepsOneSide | lib/db.ts:1407-1653 | No statement writes both the designer's tables and the engine's tables, cascades included. |
| WorkflowInvariants.UsedBindingIsPublished | lib/db.ts:1505-1589 | A role binding that a task uses belongs to a published version, which is why the content guard protects the task's rule too. |
| WorkflowInvariants.StepKeepsInv | lib/db.ts:1407-1848 | One statement of any kind keeps all declared constraints and the three rules no constraint states: instances run published versions, a task's binding is of its version, an instance's events are numbered as inserted. |
| WorkflowInvariants.RunKeepsInv | lib/db.ts:1407-1848 | Every run of statements keeps them. |
| WorkflowTheorems.ReachableEngineRowsAgree | lib/db.ts:1505-1589 | In every database reachable from empty tables each instance references an existing published version, and each task's binding, instance, attempt and the attempt's node are rows of the task's own version. |
| WorkflowTheorems.CascadeSparesOthers | lib/db.ts:1486-1504 | Cascading the delete of some versions leaves the row and the exact content of every other version. |
| WorkflowTheorems.StepKeepsPublished | lib/db.ts:1734-1779 | No statement, row moves between versions and cascades included, changes a published version's row or its sets of nodes, edges and bindings. |
| WorkflowTheorems.PublishFreeze | lib/db.ts:1435-1520 | The publish freeze over any later run: the row and the exact nodes, edges and bindings of a published version stay what they were. |
| WorkflowTheorems.ReviewedVersionStays | lib/db.ts:1457-1468 | A review row never changes or disappears, and the version it reviews can never be deleted, directly or by cascade. |
| WorkflowTheorems.EventLogIsAppendOnly | lib/db.ts:1831-1847 | Over any run, no event is altered, removed or moved, and its instance stays. |
| WorkflowTheorems.EventNumbersAreGapless | lib/db.ts:1813-1820 | In every reachable database the events of each instance are numbered exactly 1, 2, ... n in insertion order. |
| WorkflowTheorems.UsedEventKeyIsRefused | lib/db.ts:1638-1653 | An insert with a used idempotency key changes nothing, so it consumes no number. |
| WorkflowTheorems.EventInsertTakesNextNumber | lib/db.ts:1813-1820 | An insert that commits extends its instance's log by one event numbered after the last. |
| WorkflowRevisions.UpdateStoresNextRevision | lib/db.ts:1734-1746 | An update of a draft that commits stores the row it was given under its new id with exactly the old revision plus one, and leaves every other version where it was. |
| WorkflowRevisions.StepRevision | lib/db.ts:1734-1746 | A version that stays keeps its row under every statement but a committed update of it, which stores what it was given and the next revision. |
| WorkflowRevisions.RevisionCountsUpdates | lib/db.ts:1734-1746 | Over any run in which a version keeps its id its revision never falls and has grown by exactly the number of committed updates of it. |
| WorkflowRevisions.SameRevisionIsSameRow | lib/workflow-studio/definition-repository.ts:12-15 | An editor that finds the revision it read finds the row it read, so of two updates issued on one revision the second finds another. |
| WorkflowInvariants.NextSequence | lib/db.ts:1813-1820 | For a log numbered 1..n, the trigger's MAX + 1 is n + 1. |
| RowNumbers.AdditionNumbersIff | lib/db.ts:1726-1733 | A new row keeps its group numbered 1..n if and only if it takes the next number. |
| RowNumbers.RemovalNumbersIff | lib/db.ts:1541-1566 | Removing one row keeps the numbering if and only if it was the last of its group. |
| RowNumbers.MoveNumbersIff | lib/db.ts:1541-1566 | Rewriting a row keeps the numbering if and only if it keeps group and number, or leaves its group as the last one and enters another with the next number. |
| WorkflowNumbers.RunKeepsThroughoutIff | lib/db.ts:1726-1812 | A property that survives a step exactly when the step spares it holds all through a run exactly when every step does. |
| WorkflowNumbers.StepKeepsAttemptNumbersIff | lib/db.ts:1541-1566 | A statement leaves every instance and node with attempts numbered 1..n if and only if it is no UPDATE that misplaces a number and no DELETE of an attempt other than the last. |
| WorkflowNumbers.AttemptDeleteKeepsNumbersIffLast | lib/db.ts:1541-1566 | Deleting one attempt keeps the numbering if and only if it was the last one. |
| WorkflowNumbers.RunKeepsAttemptNumbersIff | lib/db.ts:1805-1812 | A run of statements keeps the attempts numbered at every step if and only if each of its statements does. |
| WorkflowNumbers.AttemptsAreGaplessAndBounded | lib/db.ts:1805-1812 | After such a run from empty tables, in particular one of inserts and status updates, every number from 1 to an attempt's own is there, and the attempt is within its maximum. |
| WorkflowNumbers.StepKeepsVersionNumbersIff | lib/db.ts:1726-1733 | A statement leaves every definition with versions numbered 1..n if and only if it is no UPDATE that misplaces a number and no DELETE of a version other than the last; deleting a definition takes its whole group along. |
| WorkflowNumbers.RunKeepsVersionNumbersIff | lib/db.ts:1726-1733 | A run of statements keeps the versions numbered at every step if and only if each of its statements does. |
| WorkflowNumbers.VersionsAreGapless | lib/db.ts:1726-1733 | After such a run from empty tables every number from 1 to a version's own belongs to a version of its definition. |
| ConfigApply.Transaction.SelectActive | lib/client-config-db.ts:1820-1824 | Fails on a poisoned transaction, otherwise finds exactly an active row with the id. |
| ConfigApply.Transaction.Insert | lib/client-config-db.ts:1841-1873 | Inserts if the id is free and every modelled check holds; otherwise it leaves the table and poisons the transaction. |
| ConfigApply.Transaction.UpdateActive | lib/client-config-db.ts:1905-1923 | Overwrites the active row in place under the same checks. |
| ConfigApply.Transaction.CloseActive | lib/client-config-db.ts:1933-1939 | Closes the active row at a date; a date before its start violates the date check and poisons the transaction. |
| ConfigApply.Transaction.Mark | lib/client-config-db.ts:1874-1878 | Stores the row's apply_status unless the transaction is poisoned. |
| ConfigApply.Transaction.TryCreate | lib/client-config-db.ts:1819-1881 | The statements of a CREATE together do what the one-row step specifies, or poison the transaction. |
| ConfigApply.Transaction.TryUpdate | lib/client-config-db.ts:1883-1981 | The same for an UPDATE, in place or as close-out and successor. |
| ConfigApply.Transaction.TryDelete | lib/client-config-db.ts:1983-2027 | The same for a DELETE. |
| ConfigApply.Transaction.ProcessRow | lib/client-config-db.ts:1787-2060 | The loop body with its catch: on a poisoned transaction the row is reported failed or the exception leaves the loop, and nothing is written. |
| ConfigApply.ConfigStore.ApplyChange | lib/client-config-db.ts:1769-2064 | The whole call refines the fold of the one-row step: it commits if and only if every row settles; then the live table, one outcome per row in order and the stored statuses are those of the fold and success means none failed; otherwise both tables are untouched and success is not reported. What the fold stores is said by ConfigAccounts. |
| ConfigApply.RunOneMore | lib/client-config-db.ts:1787-2060 | Running one row more is the run so far followed by the one-row step. |
| ConfigApply.PrefixDecides | lib/client-config-db.ts:2041-2059 | A prefix with a failing statement decides the whole run: it can no longer commit. |
| ConfigHistory.RunExtends | lib/client-config-db.ts:1820-2026 | A committed run removes no configuration, never changes an inactive row, and leaves every id alone that no row targets or derives. |
| ConfigHistory.HistoryIsKept | lib/client-config-db.ts:1820-2026 | The same over any sequence of applied change requests, committed or not. |
| ConfigHistory.ClosedTargetHasSuccessor | lib/client-config-db.ts:1933-1979 | After a committed run an UPDATE that changed its id has its target closed and its successor present, and the successor was not there before: closing without inserting is impossible. |
| ConfigHistory.RunKeepsLineage | db/clientconfig_schema.sql:161 | A committed run keeps every change request id on at most one configuration. |
| ConfigHistory.AppliedAccountCarries | lib/client-config-db.ts:1841-1979 | After a committed run every account a CREATE or UPDATE was applied to carries the id of this change. |
| ConfigHistory.OneAccountPerChange | db/clientconfig_schema.sql:161 | Hence all applied CREATEs and UPDATEs of one committed change wrote the same account, however many rows were staged. |
| ConfigHistory.RunMovesCount | lib/client-config-db.ts:1820-2026 | With staged rows active, a committed run moves the number of active configurations by exactly applied CREATEs minus applied DELETEs. |
| ConfigHistory.ChangesMoveCount | lib/client-config-db.ts:1769-2064 | The same over any sequence of change requests, an aborted one adding nothing. |
| ConfigHistory.RetirementFailsIff | lib/client-config-db.ts:2010-2015 | A DELETE fails if and only if it would end an active account before its start. |
| ConfigHistory.EndingBeforeStartAborts | lib/client-config-db.ts:1933-2015 | A DELETE or an identity-changing UPDATE that ends an active account before its start aborts the whole run, at whichever row. |
| ConfigAccounts.AccountsOfRow | lib/client-config-db.ts:1788-1799 | A row has no account of its own if and only if one of its four codes is blank; otherwise the account spells the codes and is parsed back to well-formed ones, and a given target wins over it. |
| ConfigAccounts.RowAbortsIff | lib/client-config-db.ts:1787-2060 | A row aborts the run if and only if it would insert over an inactive account, write values the checks refuse or another account's change, or end an active account before its start. |
| ConfigAccounts.RowSettles | lib/client-config-db.ts:1787-2060 | Any other row is reported as the branches say, stores every column as staged under the change's id, closes by clearing only the active flag and setting the end date, and leaves all other accounts alone. |
| ConfigAccounts.RunAbortsIff | lib/client-config-db.ts:2041-2059 | A run aborts if and only if it comes to a row that aborts. |
| ConfigAccounts.RunReports | lib/client-config-db.ts:1769-2064 | Each row of a committed run is reported by where the run stands when it comes to it. |
| ConfigAccounts.AccountHoldsWhatWasStaged | lib/client-config-db.ts:1841-1979 | After a committed run an account that a CREATE or UPDATE was last applied to, and that no later row closed, holds column by column what that row staged, under the change's id, and spells the row's codes. |
| ConfigAccounts.ClosedAccountHoldsTheRest | lib/client-config-db.ts:1933-2015 | An account that a row closed holds all it held just before, but inactive and ended: at the successor's start for an UPDATE, at the staged end date, or else start, for a DELETE. |
| ConfigAccounts.SparedAccountIsLeft | lib/client-config-db.ts:1787-2060 | An account that no applied row writes or closes is as it was before the run. |
| ConfigAccounts.StatusesAreRecorded | lib/client-config-db.ts:1874-1878 | The stored status of a staged row is the one reported for the last row with its id; all others stay. |
| ConfigReprocessing.SecondRunReplays | lib/client-config-db.ts:1782-2061 | A second run that commits inserts nothing and leaves each account as its own rewrites and retirements alone would. |
| ConfigReprocessing.AccountChangesIff | lib/client-config-db.ts:1883-2027 | An account differs after such a second run if and only if some row undoes it. |
| ConfigReprocessing.ReprocessingChangesIff | lib/client-config-db.ts:1769-2064 | Running a committed change again changes the live table if and only if that run commits and some row targets an account that the first run inserted only after it, finds it active, and retires it, deactivates it, or rewrites it with values the first run did not leave and no later row rewrites. |
| ConfigReprocessing.ReprocessingChangesNothing | lib/client-config-db.ts:1769-2064 | So re-processing is idempotent, whether the second run commits or aborts and whatever the reference tables have become, when every account the rows update or retire was there before the first run or is not there after it. |
| ConfigReprocessing.StagedBatchesAreIdempotent | lib/client-config-db.ts:1247-1279 | Every batch that passed staging, where targets must exist, is idempotent in this sense, whatever was applied between staging and its own run. |
| ConfigReprocessing.DisjointBatchesAreIdempotent | lib/client-config-db.ts:1769-2064 | So is every batch whose rows touch pairwise disjoint accounts, staged or not. |
| ConfigReprocessing.OverlappingRowsCanUndo | lib/client-config-db.ts:1883-2027 | A batch that staging would refuse can undo itself: it retires an account that a later row brings about. |
| ConfigReprocessing.OverlappingRowsExample | lib/client-config-db.ts:1883-2027 | Such a committing batch exists for any two distinct accounts; it cannot be staged, since its DELETE names an account that is not there. |
| LookupApply.TryRow | lib/client-config-db.ts:1575-1656 | The branches of the loop body for one row do what the one-row step specifies, or throw. |
| LookupApply.RowSettles | lib/client-config-db.ts:1575-1656 | A row is skipped, failed or up for insertion by what is there; it throws if and only if it is up for insertion and its columns or name are refused, and otherwise stores exactly its name, and for a sub asset class its sort order, under its code. |
| LookupApply.RunSettles | lib/client-config-db.ts:1556-1666 | Every row of a committed run does so where the run stands when it comes to it. |
| LookupApply.StatusesAreRecorded | lib/client-config-db.ts:1582-1652 | The stored status of a staged row is that of the last row with its id, failed unless applied; an unknown dimension stores nothing. |
| LookupApply.LookupStore.ApplyLookupRequests | lib/client-config-db.ts:1556-1666 | The call commits if and only if no INSERT fails; then tables, reports and stored statuses are those of the fold, an existing value being reported skipped and stored failed; otherwise it throws and nothing changes. |
| LookupApply.RunExtends | lib/client-config-db.ts:1576-1654 | No run removes or overwrites an existing lookup value. |
| LookupApply.LookupApplyConverges | lib/client-config-db.ts:1556-1666 | For every batch and every table state, a third run changes nothing after two. |
| LookupApply.ParentsFirstNeedsOneRun | lib/client-config-db.ts:1596-1606 | When each sub asset class's parent exists or comes earlier in the batch, one run already reaches the fixed point. |
| LookupApply.SecondRunWorksIffParentCameLate | lib/client-config-db.ts:1596-1634 | After a committed run, a second committing run changes the tables if and only if some sub asset class is still missing under a parent that is known by then. |
| LookupApply.SecondRunAddsNoAssetClass | lib/client-config-db.ts:1576-1594 | After a committed run no part of the batch adds an asset class again. |
| MetadataLifecycle.ValidateFormat | lib/portfolio-metadata-validation.ts:81-165 | Each format issue is reported exactly when its code is malformed, several at once. |
| MetadataLifecycle.ValidateChange | lib/portfolio-metadata-validation.ts:175-237 | No issue is reported if and only if the change is acceptable: formats, free code, active parent, no active children, not requested in another open change. |
| MetadataLifecycle.SegmentedIff | lib/portfolio-metadata-validation.ts:81-105 | A parent account code matches the pattern if and only if it is runs of capitals and digits joined by single underscores. |
| MetadataLifecycle.AcceptableIff | lib/portfolio-metadata-validation.ts:175-237 | Acceptability spelt out from trimmed, upper-cased codes, the tables and the other open changes. |
| MetadataLifecycle.RowSettles | lib/client-config-db.ts:2264-2308 | A creation fails if and only if its code is taken or a code is malformed; it then stores an active row under the requested parent, if that is active now, or with the requested MSA code. A retirement clears one active flag and changes nothing else. |
| MetadataLifecycle.CreatedParentCarriesMsa | lib/client-config-db.ts:2296-2300 | A created parent account carries the MSA code that was asked for, trimmed and upper-cased. |
| MetadataLifecycle.MetadataStore.ApplyMetadataRequests | lib/client-config-db.ts:2252-2344 | The call commits if and only if every row applies; each row is reported applied exactly when it and all rows before it applied. |
| MetadataLifecycle.ApplyKeepsIdentities | lib/client-config-db.ts:2264-2308 | Applying a row keeps every code on the row it names, active or retired, with its parent, and keeps references intact. |
| MetadataLifecycle.ApplyKeepsSoundIff | lib/client-config-db.ts:2269-2308 | Applying a row keeps active portfolios under active parents and active configurations under active portfolios if and only if it does not retire something with active children. |
| MetadataLifecycle.StagedParentResolves | lib/client-config-db.ts:2270-2287 | The parent a validated creation asks for is the one it gets, and none when it asks for none. |
| MetadataLifecycle.AcceptedChangeAppliesIff | lib/client-config-db.ts:2179-2206 | A validated change applies on the same tables if and only if it is not a parent account with a blank MSA code. |
| MetadataLifecycle.AcceptedChangeKeepsSound | lib/client-config-db.ts:2264-2341 | When it applies, the three invariants hold afterwards and the named row is created or retired as asked. |
| MetadataLifecycle.RetiringUnknownCodeDoesNothing | lib/portfolio-metadata-validation.ts:204-237 | Retiring a code that does not exist is accepted whenever its format is right and no other open change has it, and applies without effect. |
| MetadataLifecycle.ProcessedChangesKeepSound | lib/portfolio-metadata-validation.ts:175-237 | Any number of changes, each validated and then applied, keeps the three invariants together. |
| MetadataLifecycle.StaleFactsLoseTheParent | lib/client-config-db.ts:2270-2306 | Two validated changes applied one after the other can break this: a portfolio's creation and its parent's retirement leave an active portfolio under a retired parent, or, the other way round, one without the parent that was asked for. |
| Onboarding.OnboardingStore.SaveStaging | lib/onboarding-staging-db.ts:352-403 | A valid form is stored as pending unless its change or the client's pending slot is taken; otherwise nothing changes. |
| Onboarding.OnboardingStore.SetStatus | lib/onboarding-staging-db.ts:781-797 | Marking a row is refused when another row of the client holds that status. |
| Onboarding.SaveSaves | lib/onboarding-staging-db.ts:352-403 | Saving stores the form in upper case as one new pending row if and only if it is valid and neither its change nor another pending row of its client is there. |
| Onboarding.InsertableIff | lib/onboarding-staging-db.ts:690-765 | The inserts are allowed if and only if client, name, portfolio, account and change are new, no code is blank, the account has the column's pattern, the requested parent is not retired and the lookups accept the form. |
| Onboarding.WithOnboardingOnboards | lib/onboarding-staging-db.ts:690-765 | They add the client under its name, the portfolio, active and under the requested parent or none, that parent if it was missing, and the configuration under the account that spells the four codes, and change no other key of any table. |
| Onboarding.InsertOnboarding | lib/onboarding-staging-db.ts:690-765 | The inserts, one after the other, go through exactly when all of them are allowed, and then the four tables hold exactly these additions. |
| Onboarding.OnboardingStore.RunTransaction | lib/onboarding-staging-db.ts:658-779 | The transaction writes the specified result or nothing. |
| Onboarding.OnboardingStore.ApplyOnboarding | lib/onboarding-staging-db.ts:627-810 | The call does what the step specifies and what an apply is for, row by row and table by table; success is reported exactly when the change's row, if any, is applied afterwards, and without success the live tables are untouched. |
| Onboarding.OnboardingStore.DeleteStaging | lib/onboarding-staging-db.ts:555-566 | Reports whether a row was there, and removes just that row. |
| Onboarding.RunKeepsInv | db/clientconfig_schema.sql:228-251 | Over all runs of save, apply and delete, with other writers in between, change and (client, status) stay unique and every applied row's client is live. |
| Onboarding.AppliedIsFinal | lib/onboarding-staging-db.ts:627-810 | An applied row stays exactly as it is until deleted, and its client stays live even after that. |
| Onboarding.ApplyIsAllOrNothing | lib/onboarding-staging-db.ts:627-810 | An apply marks its own row only: applied if and only if no other row of the client is and the client is live or its onboarding is allowed, and otherwise failed, unless another failed row is in the way. The four tables get the whole onboarding when the row becomes applied for a new client, and nothing otherwise. |
| Onboarding.OnboardingOnlyAdds | lib/onboarding-staging-db.ts:690-765 | What was live before an onboarding is live after it, and the requested parent is active. |
| Onboarding.ReapplyWritesNothing | lib/onboarding-staging-db.ts:627-656 | Applying an applied change again changes nothing at all. |
| Onboarding.FailureIsRecordedIff | lib/onboarding-staging-db.ts:780-803 | A rolled-back apply is recorded as failed if and only if no other failed row of the client is in the way. |
| Onboarding.SecondOnboardingNeverApplies | db/clientconfig_schema.sql:250 | While a client has an applied row, no second onboarding of that client becomes applied or touches the live tables. |
| CsvExport.FieldRoundTrip | lib/export.ts:51-61 | Every field, whatever it contains, is read back by the rules of RFC 4180 section 2 with its formula guard and otherwise unchanged. |
| CsvExport.RecordRoundTrip | lib/export.ts:109-120 | The same for a record of any number of fields. |
| CsvExport.TableRoundTrip | lib/export.ts:122-123 | The same for a whole file of records. |
| CsvExport.MetadataRows | lib/export.ts:77-85 | The eight metadata rows are the printed label and value pairs, in order. |
| CsvExport.PushMetadata | lib/export.ts:78-85 | One pushed metadata row prints its label and value pair. |
| CsvExport.BuildCsvContent | lib/export.ts:74-124 | After the byte order mark the file reads back as exactly the labelled fields of the request, the empty row, the headings and one seven-field record per item, in the order the labels say. |
| CsvExport.TableShowsRequest | lib/export.ts:51-124 | The table read from the file has 10 records more than items: eight labels with the request's own fields, an empty record, the seven headings, and per item its portfolio, reference, previous benchmark, requested benchmark and cost, each with a quote before a start of =, +, -, @ or tab and otherwise unchanged. |
| CsvExport.GuardCollisions | lib/export.ts:52-56 | Two values read back the same if and only if they are equal or one is a formula start and the other its guarded form. |
| CsvExport.ExportsAgreeIffTablesAgree | lib/export.ts:74-124 | Two requests export to the same file if and only if a reader sees the same table in both. |
| CodeUniqueness.UniquenessHook.Rerender | lib/use-code-uniqueness.ts:125-130 | What is shown is idle, the stored verdict for exactly this code, or checking. |
| CodeUniqueness.UniquenessHook.FlushEffect | lib/use-code-uniqueness.ts:70-123 | Cleanup and effect clear the waiting timer, invalidate what was sent and take a new number; a valid code gets a waiting request of that number. |
| CodeUniqueness.UniquenessHook.OnTimer | lib/use-code-uniqueness.ts:78-81 | A timer that was not cleared sends its request. |
| CodeUniqueness.UniquenessHook.OnResponse | lib/use-code-uniqueness.ts:82-86 | A stale response is dropped, an error response is stored, any other goes on to its body. |
| CodeUniqueness.UniquenessHook.OnBody | lib/use-code-uniqueness.ts:87-112 | A body is stored as available or taken only for the newest number. |
| CodeUniqueness.UniquenessHook.OnFailure | lib/use-code-uniqueness.ts:113-116 | A failure is stored only for the newest number. |
| CodeUniqueness.RunKeepsInv | lib/use-code-uniqueness.ts:67-123 | Over every interleaving no request in flight is newer than the counter, and the counter never falls. |
| CodeUniqueness.StoredWasAccepted | lib/use-code-uniqueness.ts:82-116 | What is stored was put there by some event, as the answer to the request that was then the newest, sent for that code, and nothing else has been stored since. |
| CodeUniqueness.DisplayedVerdictIsForShownCode | lib/use-code-uniqueness.ts:125-130 | Under every interleaving of edits, timers and replies a verdict on screen is such an answer for exactly the code on screen, which is well-formed. |
| CodeUniqueness.OnlyTheNewestIsStored | lib/use-code-uniqueness.ts:82-116 | The stored result changes only by an answer to the newest request; a superseded reply never touches it. |
| CodeUniqueness.AnswersAreStoredInOrder | lib/use-code-uniqueness.ts:67-123 | Answers are stored in the order their requests were made, each at most once. |
| CodeUniqueness.GoneForGood | lib/use-code-uniqueness.ts:67-123 | A request that is finished with never comes back. |
| CodeUniqueness.AnswerShowsUntilEdited | lib/use-code-uniqueness.ts:125-130 | When the newest request asked for the code on screen, storing its answer ends the checking state. |
| CodeUniqueness.EditStartsOneRequest | lib/use-code-uniqueness.ts:70-81 | After any run, when the dependencies have changed, the effect leaves exactly one waiting request if the code is valid, the newest and for the code on screen, and none if it is not. |
| CodeUniqueness.EveryEditIsAnswered | lib/use-code-uniqueness.ts:67-130 | If its timer, reply and body then follow, whatever happens to other requests in between, the field shows taken or available as the body says; an error response or a failure before or while reading shows an error. |
| PrimaryAccountId.ParseGenerate | lib/portfolio-config.ts:4-11 | For well-formed codes a parser recovers the four codes from the id, which is at most 13 long. |
| PrimaryAccountId.GenerateParse | lib/portfolio-config.ts:4-11 | Every id of the column's pattern is generated from the codes read from it. |
| PrimaryAccountId.GenerateIsInjective | lib/portfolio-config.ts:4-11 | Different codes have different ids. |
| PrimaryAccountId.ValidateReadsTheCodes | lib/portfolio-config.ts:13-22 | Validation accepts an id if and only if, up to case, it spells these four codes. |
| PrimaryAccountId.BuildOfWellFormed | lib/validation-rules.ts:370-386 | Well-formed codes are never treated as missing. |
| Migration.CleanseRecords | lib/client-config-migration.ts:105-159 | The loop yields the cleansed form of every object that has its four key texts, in order. |
| Migration.CleansedIsClean | lib/client-config-migration.ts:120-154 | A cleansed record has no blank at either end of any text, no empty text but dates, and upper-case client and manager codes, defaults included. |
| MigrationValues.CleanseCleanses | lib/client-config-migration.ts:105-159 | An object is kept if and only if its four key texts are not blank; each column is the given text, trimmed, or its named default. |
| MigrationValues.CleansingGoesInOrder | lib/client-config-migration.ts:118-158 | A list is cleansed object by object, in order. |
| Migration.CleansingTwiceIff | lib/client-config-migration.ts:120-121 | Cleansing again changes nothing if and only if a client code was given or the first three characters of the portfolio code have no blank at the ends. |
| Migration.DeduplicateRecords | lib/client-config-migration.ts:163-187 | The loop with its Set keeps the first record of every business key. |
| FirstUse.FirstPerKeepsEachKeyOnce | lib/client-config-migration.ts:169-183 | Every key is kept, and kept exactly once. |
| FirstUse.FirstPerIsInOrder | lib/client-config-migration.ts:172-183 | The kept records are those at the positions no earlier record shares its key with, in their order. |
| FirstUse.FirstPerIsIdempotent | lib/client-config-migration.ts:163-187 | Deduplicating twice is deduplicating once. |
| Migration.IndexClassifications | lib/client-config-migration.ts:203-206 | The map holds, for every key, the last classification of that name. |
| MigrationRun.DefaultsWin | lib/client-config-migration.ts:94-98 | Whatever classifications exist, Match, Return and Opbouw keep the ids 1, 2 and 3. |
| Migration.ValidateAndEnrich | lib/client-config-migration.ts:191-280 | The survivors are exactly the records that pass, in order, and survivors plus dropped is the number of records. |
| Migration.CheckedIdIsTheKey | lib/client-config-migration.ts:234-239 | The id of a surviving configuration is the key its record was deduplicated on. |
| Migration.SurvivorIds | lib/client-config-migration.ts:211-276 | The ids of the survivors are exactly the keys of the records that pass. |
| Migration.SurvivorIdsAreDistinct | lib/client-config-migration.ts:211-276 | Records with distinct keys give configurations with distinct ids. |
| MigrationValues.FirstOptionIsFound | lib/portfolio-config.ts:24-32 | The codes are those of the first option with both names, and there are none if and only if no option has them. |
| MigrationValues.LastNamedIsClassified | lib/client-config-migration.ts:203-232 | A classification id is that of the last classification of the name, trimmed and ignoring case, or 0 without one. |
| MigrationValues.RecordBecomes | lib/client-config-migration.ts:211-276 | A record survives if and only if its two names have an option, its asset class is a known key and the schema accepts what it becomes; every column of the configuration is told from the record, the option and the classifications. |
| MigrationValues.ValidatingGoesInOrder | lib/client-config-migration.ts:211-276 | A list is validated record by record, in order. |
| MigrationRun.IdsSpellTheirCodes | lib/client-config-migration.ts:234-250 | A surviving configuration's id validates against its own four codes and parses to them when they are well-formed. |
| MigrationRun.BuildNormalizedPayload | lib/client-config-migration.ts:357-389 | Cleanse, deduplicate, validate and collect together; configurations plus dropped is the deduplicated count. |
| MigrationRun.FirstRecordDecides | lib/client-config-migration.ts:163-280 | A migration produces an id if and only if the first cleansed record with that key passes validation; a valid record after an invalid one of the same key is lost. |
| MigrationRun.RollbackNamesEachOnce | lib/client-config-migration.ts:397-403 | The ids of a migration are pairwise distinct, and the rollback list names each configuration exactly once and nothing else. |
| MigrationRun.IndexAssetClasses | lib/client-config-migration.ts:297-301 | Every known code maps to the last key with that code, numbered by position from 1. |
| MigrationRun.CollectReferenceData | lib/client-config-migration.ts:284-343 | The five reference lists hold one row per first use, in order, managers and benchmarks numbered from 1. |
| MigrationRun.ReferencesAreClosed | lib/client-config-migration.ts:309-342 | Every portfolio, manager, benchmark, classification and known asset class used is listed exactly once and nothing unused is; manager and benchmark ids are 1..n. |
| MigrationValues.ReferenceRowsCarry | lib/client-config-migration.ts:309-342 | Managers and benchmarks are named after their codes, portfolios have no parent, classifications no name, and asset classes the id and name of the index. |
| ErrorDedup.DedupCache.IsDuplicate | lib/error-reporter.ts:44-56 | A report within the window of the stored one is refused and changes nothing; any other is stored, and afterwards no entry is older than two windows. |
| ErrorDedup.PurgingAnswersAlike | lib/error-reporter.ts:44-56 | While the clock never falls back by more than a window and a millisecond, the purging cache answers every report as one that never forgets. |
| ErrorDedup.LargerDropsCanShow | lib/error-reporter.ts:51-54 | For every larger fall a run of three reports exists that the two caches answer differently, so the bound is exact. |
| ErrorDedup.CacheForgetsOnlyTheExpired | lib/error-reporter.ts:51-54 | What purging has lost lies more than two windows behind some report. |
| ErrorDedup.MemoryHoldsLatestAccepted | lib/github-issue-reporter.ts:18-29 | The never-forgetting cache holds, per fingerprint, the time of its latest accepted report. |
| ErrorDedup.AcceptedReportsAreSpaced | lib/error-reporter.ts:44-56 | Any two accepted reports of one fingerprint are at least one window apart. |
| ErrorDedup.RefusedReportsFollowAnAccepted | lib/github-issue-reporter.ts:18-29 | Every refused report lies within one window of an accepted one of its fingerprint. |
| References.ReferenceGenerator.Generate | lib/change-form-utils.ts:170-185 | The state ticks by clock and counter, and from the reference a reader gets the year, the type prefix (CR when unknown) and the sum modulo 10^6. |
| References.ReferenceReads | lib/change-form-utils.ts:182-184 | A reader gets back the year, the prefix and the stamp modulo 10^6 from a reference, whatever the prefix holds. |
| References.SuffixesCoincideIff | lib/change-form-utils.ts:182 | Two stamps share their suffix if and only if they are equal, or both have six digits or more and agree modulo 10^6. |
| References.StampsCountUp | lib/change-form-utils.ts:173-182 | For a nondecreasing clock the stamps of one millisecond count up by one a call. |
| References.SameMillisecondSuffixesCoincideIff | lib/change-form-utils.ts:170-185 | Two calls in one millisecond share a suffix if and only if they are a multiple of 10^6 calls apart, the time having six digits. |
| References.FirstMillionReferencesDiffer | lib/change-form-utils.ts:170-185 | The first 1,000,000 calls in a millisecond yield pairwise distinct suffixes and references, whatever their types and years. |
| References.NextMillisecondRepeats | lib/change-form-utils.ts:173-182 | Across milliseconds this fails at every time: two calls in one and a third in the next repeat a suffix. |

## Left out

- The workflow tables for variables, data snapshots, change intents, the outbox and change-type configuration: their rows only refuse more deletes.
- Checks on workflow columns that no modelled rule reads (slugs, statuses of instances and tasks, timestamps, JSON shapes, content hashes): opaque columns, so the model admits more rows than the database does.
- Multi-row statements and explicit transactions on the workflow store: statements are single-row and run one after the other.
- TRUNCATE, schema changes, trigger re-creation and concurrent sessions: the guards are taken as installed and the advisory locks as held.
- The amend and removal of staged rows before an apply: amending cannot change a target, and removing rows leaves a batch that could be staged.
- The configuration loop's `today` fallback for a retirement date: unreachable, since the staged effective_from is NOT NULL.
- Whether the database driver rethrows an error that the loops caught: either way nothing is committed, and the reports are those the loop has collected.
- Foreign keys and text checks on live configurations beyond the id pattern, the dates and the change id: one arbitrary predicate on the row.
- applyNewBenchmarkRequest: the benchmark branch of the lookup loop again, for one row.
- Status changes of the change request itself around an apply: a separate write, not part of the apply's transaction.
- Onboarding input validation and the zod payload schema: arbitrary predicates that transform nothing.
- Other writers of the live tables during onboarding: they may change anything but the clients, which only onboarding inserts.
- The generic staging update of onboarding rows (lib/onboarding-staging-db.ts:507-545): no caller outside the tests; it can set any status, so AppliedIsFinal is about save, apply and delete.
- The message texts, kind and unmount of the uniqueness check: the kind is fixed, and messages carry no decision.
- Number and date formatting in the export: costs arrive formatted. File names and slugs are not modelled.
- Migration logs and the result wrapper for input that is not an array: they carry no decision. Creation times and the empty change id of a payload are constants.
- Error fingerprints (lib/error-reporter.ts:37-42): the caches are proved for any fingerprints.
- Unicode trimming and case mapping: ASCII only.
- Reading queries, row mappers, mail, monitoring, GitHub and user interface code: no state of their own.
