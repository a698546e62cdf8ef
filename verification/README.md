# Verification of the migration engine and the record protocol

A Dafny model of the parts of this repository whose correctness is hardest to see from the code,
with proofs over all inputs, all runs and all interleavings. Each source loop is a method proved
against a specification function; the theorems are lemmas about those functions. Nothing was
executed.

## What is modelled

- **Override engine** (`OverridePhases`, `Classification`, `PhaseEngine`, `PhaseEngineProofs`,
  `PhaseEngineMeaning`, `SyncRun`, `SyncProofs`, `SyncMeaning`, `SyncOutcome`, `CopyVerification`,
  `Migrator`). A world is the durable statement log, the open transaction, the progress rows, the registry and
  the snapshot. Every server call meets an outcome from a script: it takes effect and is
  acknowledged, it is refused, or it takes effect and the answer is lost. All scripts together are
  all crashes and failures; a history is a series of syncs, one script each, over a fixed override
  list. Record DML stays in the transaction, DDL and `MOVE VERTEX` commit as they run, swaps commit
  one by one.
- **Advisory lock** (`MigrationLock`). Processes over one row; read, clock sample and write are
  separate steps that interleave freely, with clocks within a skew of true time.
- **Schema diff** (`SchemaModel`, `SchemaDiff`, `SchemaConformance`, `SchemaConvergence`,
  `SchemaDefaults`, `SchemaParsing`, `SchemaRetypes`). Actions have an executable meaning on
  schemas; how the database resolves a default is an arbitrary function; conformance is defined
  without actions.
- **SQL text** (`Text`, `SqlText`, `SqlLiterals`, `Rollout`, `RolloutRoundTrip`, `RolloutExactness`,
  `AttributeBlock`, `AttributeRoundTrip`, `AttributeExactness`, `AttributeLiterals`). Comment stripping, statement
  splitting, printed rollouts and attribute blocks over sequences of characters.
- **Typed records** (`Records`, `RecordFlatten`, `RecordRoundTrip`). What the derives generate,
  run over a description of a struct's fields.
- **Client protocols** (`FilterClause`, `Cache`, `TestPool`, `Retry`, `Decimal`).

## What the proofs found

- A sync in baseline mode trusts "no user types and no snapshot". A database that was never synced
  and whose override drops its last type looks like that after a crash; the next sync registers
  the half-done override without running the rest. It is exactly the registered overrides with
  something left to do that lose it (`SyncProofs.BaselineAbandons`,
  `SyncProofs.BaselineAbandonsReachably`). With a snapshot the engine is safe over every history
  (`SyncProofs.SnapshotNeverBaseline`).
- The lock's compare-and-set matches on the holder alone. A holder that refreshes between another
  process's read and write loses its row while its lease runs; a run is exclusive throughout
  exactly when no such write occurs, and if each holder id claims once none does
  (`MigrationLock.RefreshBreaksExclusion`, `MigrationLock.ExclusiveThroughoutIff`,
  `MigrationLock.LockExcludes`).
- The comment of `copy_verification_pairs` describes `MOVE VERTEX <source> TO TYPE:<target>`, but
  the code looks for ` FROM ` and a name; a move has its counts checked exactly when they follow
  (`CopyVerification.DocumentedMoveIff`), and a copy phase commits unchecked exactly when none of
  its statements has a pair (`CopyVerification.CommitsUncheckedIff`). The model follows the code.
- Default texts recorded under `type.property` never share a key, because the parser cuts a
  qualified name at its first dot; convergence then rests on the database alone
  (`SchemaParsing.ParsedSchemasConvergeIff`).
- The parser of attribute blocks never undoes the escapes the printer writes; exactly which blocks
  come back is `AttributeExactness.BlockReadsBackIff`.
- A flattened struct with an `@rid` or `@type` field reads the map unfiltered, so it can read a
  key its parent consumed; exactly when that matters is `RecordFlatten.ZeroCopyIsClonedIff`. Byte
  vectors come back as fields but not inside lists or maps, and an absent optional `@type` is
  filled from the record's class on the way back.
- A getdel returns an expired value of any age unless a clean-up swept it first, and needs no
  failed clean-up to do so; a get never returns one.
- A cancelled checkout leaks its slot for good, after which the "unreachable" no-slot error is
  reachable; without one the pool never does (`TestPoolModel.CompleteIffNotCancelled`).
- A bind over an operator's placeholder changes what the operator compares with
  (`FilterClauses.RebindingChangesMeaning`); exactly when that changes the rows selected is
  `FilterClauses.BuiltMeansWantedIff`. `NOT (… CONTAINSANY …)` is the negation of `CONTAINSANY`
  and `BETWEEN` is both bounds; the operators are otherwise uninterpreted, so rows are any answers
  to them.

## Model

| member | source | states |
|---|---|---|
| SyncProofs.HistoryInOrder | crates/arcadedb-migrate/src/migrator/mod.rs:176-361 | over every history of interrupted syncs that never begins in baseline mode, for every override: transactional copies are durable, each once, iff the copy marker or the registration is, and none otherwise; a marker or a registration, and so any swap, comes only with the whole copy phase logged as one block in authored order, transactional or not, its counts verified at the commit, none of the override's swaps before it and none of its copies after it; marked swaps are a prefix, executed ones that prefix or one more; registration only after all of both phases |
| SyncProofs.SnapshotNeverBaseline | crates/arcadedb-migrate/src/migrator/mod.rs:610-618 | once a snapshot exists no later sync is in baseline mode, so the history property holds unconditionally |
| SyncProofs.SyncKeepsOrder | crates/arcadedb-migrate/src/migrator/mod.rs:176-361 | one sync outside baseline mode, cut short anywhere, keeps that invariant for every override of the list, and keeps the snapshot |
| SyncProofs.BaselineExecutesNothing | crates/arcadedb-migrate/src/migrator/mod.rs:248-283 | from no user types and no snapshot, over every history, no statement of any override is executed; all are registered before the first diff statement can make the database non-empty |
| SyncProofs.BaselineAbandons | crates/arcadedb-migrate/src/migrator/mod.rs:254-279 | a baseline sync, whatever becomes of its calls, runs no override statement: a pending override is in order afterwards iff it was not registered or nothing of it was left to do, and a sync that succeeds registers it |
| SyncProofs.BaselineAbandonsReachably | crates/arcadedb-migrate/src/migrator/mod.rs:254-279 | that loss is reachable with the migrator's own classifier: a never-synced database, an override `DROP TYPE Old; DROP BUCKET Old_0`, a crash after the first; the next sync registers it with the second never run |
| SyncProofs.PendingIsUnregistered | crates/arcadedb-migrate/src/migrator/fs.rs:198-244 | there is a pending list iff no registered file was edited and no unregistered file repeats registered content; it is then the unregistered files in order |
| PhaseEngineProofs.ApplyKeepsOrder | crates/arcadedb-migrate/src/migrator/mod.rs:373-432 | one application of an override, from any state where the invariant holds and for any outcomes of its server calls, keeps it, logs statements of that override only, and leaves every other file as it was |
| PhaseEngineProofs.CopyPhaseKeepsOrder | crates/arcadedb-migrate/src/migrator/mod.rs:449-551 | rows and marker become durable together or not at all, whatever call fails or goes unheard |
| PhaseEngineProofs.SwapPhaseKeepsOrder | crates/arcadedb-migrate/src/migrator/mod.rs:393-421 | the swap loop only ever extends the executed prefix by its next index and marks behind it |
| PhaseEngineProofs.CopyPhaseShape | crates/arcadedb-migrate/src/migrator/mod.rs:449-551 | what a copy phase can leave: nothing but the auto-committed statements so far, or, only with every verification pair satisfied, all statements and the marker |
| PhaseEngineProofs.FinishKeepsOrder | crates/arcadedb-migrate/src/migrator/mod.rs:422-431 | registering and clearing progress keep the override in order |
| PhaseEngineMeaning.ResumedMeansAuthored | crates/arcadedb-migrate/src/migrator/mod.rs:373-432 | for phase-ordered files with replay-safe auto-committed copies: once registered, with no swap run twice, the data is what running the authored list once in order gives |
| PhaseEngineMeaning.AttemptsMean | crates/arcadedb-migrate/src/migrator/mod.rs:373-432 | the same at every intermediate point: the data is the copy phase run once (if marked) followed by the swaps that ran, in the order they ran |
| PhaseEngineMeaning.IdempotentIsAbsorbed | crates/arcadedb-migrate/src/migrator/mod.rs:436-448 | an idempotent statement that commutes with its predecessors satisfies the replay condition above |
| SyncMeaning.HistoryMeansAuthored | crates/arcadedb-migrate/src/migrator/mod.rs:176-361 | over every history outside baseline mode: once all overrides are registered and none of their swaps ran twice, the data is that of all overrides' authored statements run once, in file order, and then of the diff statements logged; while one is not registered, no diff statement has run |
| SyncMeaning.HistoryProgresses | crates/arcadedb-migrate/src/migrator/mod.rs:176-361 | at every point of such a history the overrides are done up to some point of the list, the later ones untouched, and the data is exactly that of the finished ones, of the attempts at the next, and then of the diff |
| SyncMeaning.NothingOfTheDiff | crates/arcadedb-migrate/src/migrator/mod.rs:285-348 | what is logged while an override is attempted is its own: no diff statement comes between two attempts at it |
| SyncOutcome.SyncReconciles | crates/arcadedb-migrate/src/migrator/mod.rs:285-348 | a sync, whatever becomes of its calls, logs override entries and then a prefix of the diff of the state, snapshot and registry the overrides left, TimeSeries creations first; with something to execute, a sync that succeeds logs all of it, and nothing is recorded over a diff cut short; after any sync that succeeds the snapshot is the checksum and the state of the final log |
| SyncOutcome.SecondSyncIsIdle | crates/arcadedb-migrate/src/migrator/mod.rs:176-361 | after a sync that succeeded, another one over the same overrides and schema changes nothing, whatever becomes of its calls, and succeeds undisturbed |
| SyncOutcome.ApplySucceedsIff | crates/arcadedb-migrate/src/migrator/mod.rs:373-432 | an undisturbed application of an unregistered override, wherever earlier attempts left it, succeeds iff the counts of its copies pass; then the log gained exactly the copies still to do and the unmarked swaps in order, the override is registered, and its progress is gone |
| SyncOutcome.SyncSucceeds | crates/arcadedb-migrate/src/migrator/mod.rs:176-361 | an undisturbed sync whose overrides can be listed, are in phase order and pass their counts succeeds: every pending override done in order and then all of the diff of what they left; in baseline mode they are registered and the diff runs |
| SyncOutcome.SyncRegistersAll | crates/arcadedb-migrate/src/migrator/mod.rs:254-283 | a sync that succeeds leaves every override registered with its own checksum |
| MigratorLoops.Migrator.SyncOnce | crates/arcadedb-migrate/src/migrator/mod.rs:176-361 | the sync, as statements over mutable server state, ends in the world and result of the specification the histories are proved about |
| MigratorLoops.Migrator.Apply | crates/arcadedb-migrate/src/migrator/mod.rs:373-432 | the override application, step by step, computes its specification |
| MigratorLoops.Migrator.ApplyCopyPhase | crates/arcadedb-migrate/src/migrator/mod.rs:449-551 | begin, count, copy, verify, mark, commit or roll back: computes its specification |
| MigratorLoops.Migrator.ApplySwapPhase | crates/arcadedb-migrate/src/migrator/mod.rs:393-421 | the swap loop with its journal computes its specification |
| MigratorLoops.Migrator.Reconcile | crates/arcadedb-migrate/src/migrator/mod.rs:285-348 | re-diff against the post-override state, run it with the TimeSeries creations first, record what it became: computes the specification that `SyncOutcome.SyncReconciles` is about |
| MigratorLoops.Migrator.Pending | crates/arcadedb-migrate/src/migrator/fs.rs:198-244 | the loop with early refusal gives the specified pending list |
| MigratorLoops.Migrator.CommitTransaction | crates/arcadedb-migrate/src/schema/revisions/progress.rs:86-94 | commit makes the transaction view durable, and the marker row with it |
| MigratorLoops.Migrator.MarkSwap | crates/arcadedb-migrate/src/schema/revisions/progress.rs:96-116 | a swap mark adds exactly its index to the file's journal |
| MigratorLoops.Migrator.ClearProgress | crates/arcadedb-migrate/src/schema/revisions/progress.rs:122-135 | clearing removes exactly the file's journal; its failure is swallowed |
| OverridePhases.SplitOverridePhases | crates/arcadedb-migrate/src/migrator/classification.rs:69-80 | the loop gives the statements of each class in authored order |
| OverridePhases.ValidatePhaseOrdering | crates/arcadedb-migrate/src/migrator/classification.rs:89-114 | accepts iff copy ++ swap is the authored list; a rejection names the first moved statement and the first destructive one |
| OverridePhases.InterleavedIsReordered | crates/arcadedb-migrate/src/migrator/classification.rs:82-88 | an additive statement after a destructive one is moved by the split |
| OverridePhases.OrderedIsKept | crates/arcadedb-migrate/src/migrator/classification.rs:66-68 | a file whose copies all come first is run as authored |
| Classification.OwnedTypes | crates/arcadedb-migrate/src/migrator/classification.rs:273-292 | a type is owned iff some applied statement creates or renames it into being and none after it drops or renames it away |
| Classification.DestructiveIff | crates/arcadedb-migrate/src/migrator/classification.rs:40-60 | a statement is destructive iff, in any case and after any whitespace, it begins with DROP, DELETE or UPDATE, or renames a type, or retypes a property |
| Classification.CreationNames | crates/arcadedb-migrate/src/migrator/classification.rs:207-241 | a type creation names its type, whatever kind stands before `TYPE`, with or without `IF NOT EXISTS` and a final `;` |
| Classification.DropNames | crates/arcadedb-migrate/src/migrator/classification.rs:245-263 | a type drop names its type, with or without `TIMESERIES`, `IF EXISTS` and a final `;` |
| Classification.RenameNames | crates/arcadedb-migrate/src/migrator/classification.rs:295-310 | a rename names the old type and the new one |
| Classification.CopyVerificationPairs | crates/arcadedb-migrate/src/migrator/classification.rs:148-183 | the loop collects the pair of each statement that has one |
| CopyVerification.PairIff | crates/arcadedb-migrate/src/migrator/classification.rs:116-183 | a statement has a pair iff it is an INSERT INTO with a name after it and a name after its last ` FROM `, or a MOVE VERTEX with a name after its first ` TO TYPE:` and one after its first ` FROM ` |
| CopyVerification.PairIs | crates/arcadedb-migrate/src/migrator/classification.rs:116-183 | and the pair is then those names, whole |
| CopyVerification.DocumentedMoveIff | crates/arcadedb-migrate/src/migrator/classification.rs:140-183 | `MOVE VERTEX <source> TO TYPE:<target>` and whatever follows has a pair iff a ` FROM ` and a name follow |
| CopyVerification.CommitsUncheckedIff | crates/arcadedb-migrate/src/migrator/mod.rs:449-551 | with the pairs the migrator derives, an undisturbed copy phase commits whatever the row counts are iff none of its statements has a pair |
| CopyVerification.DocumentedMovesCommitUnchecked | crates/arcadedb-migrate/src/migrator/classification.rs:140-183 | a copy phase of documented moves commits unchecked |
| MigrationLock.LockExcludes | crates/arcadedb-migrate/src/schema/revisions/lock.rs:48-157 | over every interleaving of read, clock sample, write, release, crash and passing time, with each holder id claiming at most once and clocks within a skew: every live lease is the row's holder, so at most one is live |
| MigrationLock.FreshRunsExclude | crates/arcadedb-migrate/src/schema/revisions/lock.rs:68-157 | exclusion over every run in which no write takes over a row other than the one it read |
| MigrationLock.ExclusiveThroughoutIff | crates/arcadedb-migrate/src/schema/revisions/lock.rs:96-157 | a run is exclusive at every point iff no write of it takes a live holder's row that changed since it was read |
| MigrationLock.WriteKeepsExclusive | crates/arcadedb-migrate/src/schema/revisions/lock.rs:96-157 | a write breaks exclusion iff it takes a live holder's row that changed since it was read |
| MigrationLock.OtherActsKeepExclusive | crates/arcadedb-migrate/src/schema/revisions/lock.rs:68-174 | reads, samples, releases, crashes and time keep exclusion |
| MigrationLock.RefreshBreaksExclusion | crates/arcadedb-migrate/src/schema/revisions/lock.rs:135-139 | the compare-and-set looks at the holder only: a refresh between another process's read and write leaves two live leases |
| MigrationLock.ReleaseKeepsOthers | crates/arcadedb-migrate/src/schema/revisions/lock.rs:161-174 | a late release leaves another holder's row and lease alone |
| MigrationLock.ReleaseFreesRow | crates/arcadedb-migrate/src/schema/revisions/lock.rs:161-174 | a release deletes the releaser's row, leaves any other row, and ends its own lease only |
| MigrationLock.ReleasedIsGranted | crates/arcadedb-migrate/src/schema/revisions/lock.rs:68-174 | right after its holder's release the lock goes to any other process that claims undisturbed, however long the released lease had to run |
| MigrationLock.LostClaimChangesNothing | crates/arcadedb-migrate/src/schema/revisions/lock.rs:96-157 | a claim that is refused or loses its race leaves the row alone |
| MigrationLock.LockTable.AcquireLock | crates/arcadedb-migrate/src/schema/revisions/lock.rs:68-157 | undisturbed, a claim is its three steps back to back, granted iff the row is free, expired or its own |
| MigrationLock.LockTable.ReleaseLock | crates/arcadedb-migrate/src/schema/revisions/lock.rs:161-174 | deletes the row iff it is the releaser's, and otherwise leaves it |
| SchemaConvergence.DiffConverges | crates/arcadedb-migrate/src/schema/diff.rs:240-319 | after the diff's actions, a second diff against the recorded snapshot and any later introspection, expression values re-resolved at will, renders nothing iff every declared default kept a value and is recorded under its own key |
| SchemaDefaults.DotFreeSchemasConverge | crates/arcadedb-migrate/src/schema/diff.rs:386-476 | dot-free names of the types that declare a default, and a database that keeps a value for each default, suffice for convergence |
| SchemaDefaults.KeyInjective | crates/arcadedb-migrate/src/schema/model/mod.rs:110-114 | the joined key identifies type and property when the type names have no dot |
| SchemaParsing.ParsedSchemasConvergeIff | crates/arcadedb-migrate/src/schema/diff.rs:240-319 | for every schema read from declarations and merged over files, a second diff renders nothing iff the database kept a value for every declared default of the types it reconciles |
| SchemaParsing.SchemaOf | crates/arcadedb-migrate/src/migrator/fs.rs:128-158 | every schema read from a directory is well formed and no type that declares a default has a dot in its name |
| SchemaParsing.SplitOnce | crates/arcadedb-migrate/src/schema/parser.rs:425-428 | the qualified name is cut at its first dot: the type name has none, and type, dot and property give the name back |
| SchemaParsing.Merge | crates/arcadedb-migrate/src/migrator/fs.rs:254-272 | the loops over a file's types and properties compute the specified merge |
| SchemaParsing.MergedIsSound | crates/arcadedb-migrate/src/migrator/fs.rs:254-272 | merging keeps schemas well formed and the names of types with defaults free of dots |
| SchemaRetypes.SecondDiffWarnsTheSame | crates/arcadedb-migrate/src/migrator/mod.rs:822-859 | the second diff carries exactly the retypes of the first, as warnings, and nothing else |
| SchemaRetypes.SelfDiffIsEmpty | crates/arcadedb-migrate/src/schema/diff.rs:231-233 | any schema diffed against itself without a snapshot gives no actions |
| SchemaConformance.RendersIffNotConforming | crates/arcadedb-migrate/src/schema/diff.rs:240-319 | there is something to render iff the actual schema does not conform, conformance being defined without reference to actions |
| SchemaConformance.DropsExactlyTheUnowned | crates/arcadedb-migrate/src/schema/diff.rs:303-316 | nothing is removed without the explicit strategy; with it exactly the actual types that are neither desired nor ignored, and never a property or index |
| SchemaConformance.OwnedTypesSurvive | crates/arcadedb-migrate/src/migrator/mod.rs:712-814 | a type applied overrides left behind is never dropped, and a dropped type is one the schema does not declare |
| SchemaConvergence.DiffApplied | crates/arcadedb-migrate/src/schema/diff.rs:240-319 | type by type, what applying the actions makes of the schema |
| SchemaConformance.DefaultEditsNone | crates/arcadedb-migrate/src/schema/diff.rs:431-475 | the default logic emits nothing iff the default is settled three-way |
| SchemaConformance.IndexCreatedIff | crates/arcadedb-migrate/src/schema/diff.rs:478-499 | a desired index is created iff the database has none under its name, both named, and none over its columns and of its kind, one of them unnamed |
| SchemaDiff.DiffWithSnapshot | crates/arcadedb-migrate/src/schema/diff.rs:240-319 | the nested loops push the specified actions in the specified order |
| SchemaDiff.DiffConstraints | crates/arcadedb-migrate/src/schema/diff.rs:386-476 | the flag, bound and default branches push the specified edits |
| SchemaDiff.DiffProperties | crates/arcadedb-migrate/src/schema/diff.rs:345-382 | the property loop pushes creates and edits as specified |
| SchemaDiff.DiffIndexes | crates/arcadedb-migrate/src/schema/diff.rs:478-499 | the index loop creates exactly the wanted indexes without a match on columns and kind |
| SchemaDiff.ActionsToStatements | crates/arcadedb-migrate/src/migrator/mod.rs:822-859 | succeeds iff the strategy is explicit or nothing is removed; statements are all actions but retypes, warnings the retypes; an error names a removing action |
| SchemaConvergence.CollectDefaultExprs | crates/arcadedb-migrate/src/migrator/fs.rs:277-287 | the loops collect the declared default texts, later keys winning |
| SqlText.StripIdempotent | crates/arcadedb-migrate/src/schema/ddl/parse_util.rs:46-70 | stripping comments twice is stripping once, from every quote state |
| SqlText.StripKeepsNewlines | crates/arcadedb-migrate/src/schema/ddl/parse_util.rs:46-70 | stripping keeps the exact number of newlines |
| SqlText.ChunksStandAlone | crates/arcadedb-migrate/src/schema/ddl/parse_util.rs:78-111 | every chunk of every text splits to itself alone |
| SqlText.SplitTerminated | crates/arcadedb-migrate/src/schema/ddl/parse_util.rs:78-111 | splitting the `;`-terminated concatenation of closed, comment-free statements gives the list back |
| SqlText.StatementSplitsToItself | crates/arcadedb-migrate/src/schema/ddl/parse_util.rs:78-111 | a non-blank, comment-free text without a top-level `;` is one chunk |
| SqlText.StripComments | crates/arcadedb-migrate/src/schema/ddl/parse_util.rs:46-70 | the scanning loop computes the stripping it is proved about |
| SqlText.SplitSqlStatements | crates/arcadedb-migrate/src/schema/ddl/parse_util.rs:78-111 | the scanning loop computes the splitting it is proved about |
| SqlLiterals.ScannersMean | crates/arcadedb-migrate/src/schema/ddl/parse_util.rs:46-150 | every text is code, literals (a delimiter, a body whose quotes of that kind all follow an odd run of backslashes, the delimiter) and comments; stripping drops exactly the comments, and splitting cuts exactly at the `;` of the code that no brace of the code encloses, literals kept whole |
| SqlLiterals.PiecesMean | crates/arcadedb-migrate/src/schema/ddl/parse_util.rs:46-150 | the same for every such decomposition |
| RolloutRoundTrip.RenderedPlanReadsBack | crates/arcadedb-migrate/src/migrator/rollout.rs:64-219 | parsing a printed plan gives its checksum, each override's filename, checksum and statements in order, and the diff |
| RolloutRoundTrip.HeaderNameReadsBackIff | crates/arcadedb-migrate/src/migrator/rollout.rs:166-174 | parsing an override's printed header line adds one header, whose name is the override's iff no space and parenthesis meet in it |
| RolloutExactness.HeaderReadsBackIff | crates/arcadedb-migrate/src/migrator/rollout.rs:166-174 | an override's printed header line adds exactly its name and checksum iff no space and parenthesis meet in the name and the checksum is trimmed and does not end in a closing parenthesis |
| RolloutExactness.ChecksumReadsBackIff | crates/arcadedb-migrate/src/migrator/rollout.rs:164-165 | the rollout's checksum line gives it back iff it is trimmed |
| RolloutExactness.SectionSplitsIff | crates/arcadedb-migrate/src/migrator/rollout.rs:118-150 | a printed section splits back into its statements iff each is trimmed and non-empty, free of comments and of `;` outside quotes and braces, and closes what it opens |
| RolloutExactness.OutsideIsRefusedIff | crates/arcadedb-migrate/src/migrator/rollout.rs:162-185 | outside sections a line is refused iff it is not blank and does not begin with two dashes |
| RolloutRoundTrip.SectionSplits | crates/arcadedb-migrate/src/migrator/rollout.rs:118-150 | a printed section splits and trims to its statements |
| RolloutRoundTrip.MergeFills | crates/arcadedb-migrate/src/migrator/rollout.rs:193-205 | the header checksums reach exactly their own sections |
| RolloutRoundTrip.BodyLines | crates/arcadedb-migrate/src/migrator/rollout.rs:183-187 | statement lines inside a section are kept character for character |
| RolloutRoundTrip.ParsedNamesDiffer | crates/arcadedb-migrate/src/migrator/rollout.rs:207-216 | a parsed rollout never lists an override twice; what is refused as a duplicate does |
| Rollout.RenderRollout | crates/arcadedb-migrate/src/migrator/rollout.rs:64-92 | the index walk prints the specified text |
| Rollout.ParseRollout | crates/arcadedb-migrate/src/migrator/rollout.rs:97-219 | the line loop computes the specified parse, errors included |
| Rollout.MergeHeaders | crates/arcadedb-migrate/src/migrator/rollout.rs:193-205 | the header loop fills or appends sections as specified |
| AttributeRoundTrip.BlockReadsBack | crates/arcadedb-migrate/src/schema/parser.rs:477-515 | parsing the interior of a printed block gives every flag, bound and default back, values with commas, brackets, spaces or empty text included |
| AttributeRoundTrip.ClauseReadsBack | crates/arcadedb-migrate/src/schema/model/property.rs:26-33 | a whole type clause reads back as its type and constraints |
| AttributeExactness.BlockReadsBackIff | crates/arcadedb-migrate/src/schema/parser.rs:477-515 | a printed block gives its constraints back iff no bound has a double quote, no entry but the last leaves an escape pending, and the default is trimmed without a comma outside quotes and brackets |
| AttributeExactness.ClauseReadsBackIff | crates/arcadedb-migrate/src/schema/model/property.rs:26-33 | a whole type clause reads back iff its constraints meet that condition |
| AttributeRoundTrip.ValueReadsBackIff | crates/arcadedb-migrate/src/schema/parser.rs:521-531 | a bound's value reads back iff it has no double quote: escapes are printed but never undone |
| AttributeRoundTrip.InsideQuotes | crates/arcadedb-migrate/src/schema/parser.rs:537-577 | quoted text ends with an escape pending iff it ends in an odd number of backslashes |
| AttributeRoundTrip.DefaultReadsBackIff | crates/arcadedb-migrate/src/schema/parser.rs:477-577 | a block holding only a default reads back iff its text is trimmed and has no comma outside quotes and brackets |
| AttributeRoundTrip.JoinedSplits | crates/arcadedb-migrate/src/schema/parser.rs:537-577 | splitting the printed entries on top-level commas gives the entries |
| AttributeBlock.SplitTopLevelCommas | crates/arcadedb-migrate/src/schema/parser.rs:537-577 | the slicing loop computes the specified pieces |
| AttributeBlock.ParseAttributeBlock | crates/arcadedb-migrate/src/schema/parser.rs:477-515 | the item loop computes the specified parse, errors included |
| AttributeBlock.SplitAtFirstParen | crates/arcadedb-migrate/src/schema/ddl/parse_util.rs:195-226 | the scan finds the first parenthesis outside quotes |
| AttributeLiterals.BlockScannersMean | crates/arcadedb-migrate/src/schema/parser.rs:537-577 | every text is single characters and literals; commas cut exactly where no bracket of any kind encloses them, the block opens at the first parenthesis, and neither is ever within a literal |
| AttributeLiterals.BoolReadsIff | crates/arcadedb-migrate/src/schema/parser.rs:493-501 | a flag is the word true or false in any case, and nothing else |
| AttributeLiterals.NamesReadIff | crates/arcadedb-migrate/src/schema/parser.rs:502-515 | which attribute a name stands for, in any case |
| AttributeLiterals.ValueReads | crates/arcadedb-migrate/src/schema/parser.rs:521-531 | a bound loses one pair of quotes of either kind and must not be missing |
| AttributeBlock.PlainCharIff | crates/arcadedb-migrate/src/schema/model/property.rs:155-164 | exactly which characters need no quotes |
| AttributeRoundTrip.UnescapeInverts | crates/arcadedb-migrate/src/schema/model/property.rs:155-164 | dropping the backslash before each quote undoes the printer's escapes, for every value |
| RecordFlatten.ZeroCopyIsCloned | crates/arcadedb-record-macros/src/lib.rs:445-498 | for every shape, map and taken list, hiding the consumed keys equals decoding from a copied map without them as long as no consumed key is one a metadata field reads |
| RecordFlatten.ZeroCopyIsClonedIff | crates/arcadedb-record-macros/src/lib.rs:445-498 | as soon as either decoder succeeds, the two agree iff every metadata field that reads a consumed key decodes it to what the key's absence would give; that condition makes even their errors equal |
| RecordFlatten.FromMapIsFromValue | crates/arcadedb-protocol/src/record/mod.rs:406-426 | decoding in place equals materialising the remaining entries as an embedded value and decoding that |
| RecordFlatten.RecordDecodesAlike | crates/arcadedb-record-macros/src/lib.rs:445-498 | whole records of structs whose flattened parts have no metadata fields decode alike both ways |
| RecordFlatten.ConsumedMetadataLeaks | crates/arcadedb-record-macros/src/lib.rs:1376-1463 | with a metadata field in parent and child the child reads the key its parent consumed, and the two decoders part |
| RecordRoundTrip.StructReadsBackIff | crates/arcadedb-record-macros/src/lib.rs:1991-2057 | decoding what `props` wrote gives the struct back iff every field survives |
| RecordRoundTrip.RecordReadsBackIff | crates/arcadedb-protocol/src/record/mod.rs:284-305 | the same for a record written for a class and read back through its own metadata |
| RecordRoundTrip.ValueReadsBackIff | crates/arcadedb-protocol/src/record/types.rs:138-165 | a value inside a container or struct comes back iff it survives: unsigned 64-bit up to the signed maximum, no byte vectors in containers |
| RecordRoundTrip.ListReadsBackIff | crates/arcadedb-protocol/src/record/types.rs:267-284 | a list comes back iff every element does |
| RecordRoundTrip.MapReadsBackIff | crates/arcadedb-protocol/src/record/types.rs:286-325 | a string-keyed map comes back iff every value does |
| Records.IntegerDecodesIff | crates/arcadedb-protocol/src/record/types.rs:138-165 | a wire integer, or a decimal without scale and bytes, decodes into an n-bit field iff it lies in that field's range, stated by powers of two; the value is kept |
| Records.TextDecodesIff | crates/arcadedb-protocol/src/record/types.rs:31-56 | text comes from texts, links and timestamps, and from a decimal only when it is no plain integer |
| Records.BlobReadsListIff | crates/arcadedb-protocol/src/record/mod.rs:618-641 | a byte field reads a list iff it holds nothing but integers from 0 to 255 |
| Records.ListErrorIsLocated | crates/arcadedb-protocol/src/record/types.rs:267-284 | a list reports its first bad element, by index |
| Records.MissingIsLocated | crates/arcadedb-record-macros/src/lib.rs:445-498 | a required field missing from a flattened struct is named by its path |
| Records.MapFrom | crates/arcadedb-protocol/src/record/types.rs:286-302 | the entry loop, in any order, decodes the map or reports one of its failing entries |
| FilterClauses.BuiltMeansWanted | crates/arcadedb-protocol/src/filter.rs:138-309 | after any calls whose binds give no generated placeholder another value: all placeholders are bound and distinct, and the AND of the fragments selects exactly the rows satisfying every call with the values it was given |
| FilterClauses.BuiltMeansWantedIff | crates/arcadedb-protocol/src/filter.rs:133-309 | after any calls whatever: every placeholder is bound, and the clause selects the rows asked for, whatever the rows answer, iff the conditions it tests in the end are the ones asked for, or each of the two holds something and its opposite (null and not null, or contains-any and its negation with one operand) |
| FilterClauses.RenderMentions | crates/arcadedb-protocol/src/filter.rs:4-8 | a rendered fragment refers to each of its placeholders, which the meaning theorem shows bound |
| FilterClauses.ComparisonsRead | crates/arcadedb-protocol/src/filter.rs:140-171 | on integers, each comparing operator is rendered as the SQL comparison it is called |
| FilterClauses.FirstTexts | crates/arcadedb-protocol/src/filter.rs:139-171 | the text each comparison appends to an empty clause, for every column |
| FilterClauses.CollectionTexts | crates/arcadedb-protocol/src/filter.rs:203-292 | the same for membership, containment and patterns, the negated containment included |
| FilterClauses.OtherTexts | crates/arcadedb-protocol/src/filter.rs:173-200 | the same for ranges and null tests |
| FilterClauses.JoinedByAnd | crates/arcadedb-protocol/src/filter.rs:70-74 | fragments are joined by AND |
| FilterClauses.BindKeepsIff | crates/arcadedb-protocol/src/filter.rs:133-136 | a bind leaves the rows a clause selects alone iff it changes no condition its fragments test, or the clause holds something and its opposite before and after |
| FilterClauses.RebindingChangesMeaning | crates/arcadedb-protocol/src/filter.rs:133-136 | binding over an operator's placeholder changes what the operator compares with |
| FilterClauses.FirstFree | crates/arcadedb-protocol/src/filter.rs:311-324 | the candidate search ends at the first free number |
| FilterClauses.FewerAhead | crates/arcadedb-protocol/src/filter.rs:311-324 | each taken candidate leaves fewer names ahead, so the search ends |
| FilterClauses.FilterClause.FreshName | crates/arcadedb-protocol/src/filter.rs:311-324 | the candidate loop terminates with the base if free, else the first free numbered name |
| FilterClauses.TakenNames | crates/arcadedb-protocol/src/filter.rs:311-324 | a taken name is numbered from 2 on |
| FilterClauses.FilterClause.AddOperator | crates/arcadedb-protocol/src/filter.rs:297-309 | an operator call appends its fragment and binds its value under the fresh name |
| FilterClauses.FilterClause.AddBetween | crates/arcadedb-protocol/src/filter.rs:173-187 | a range call binds both ends under names of their own |
| FilterClauses.FilterClause.WhereSql | crates/arcadedb-protocol/src/filter.rs:70-84 | the fragments joined, or nothing when there are none |
| Text.DigitsAreInjective | crates/arcadedb-protocol/src/filter.rs:319-321 | numbered candidates differ because decimal text is injective |
| CacheModel.GetIsTtlMap | crates/arcadedb-protocol/src/cache.rs:275-293 | over every history with a clock that does not run backwards, a get answers as a map from keys to values and deadlines, whatever became of the clean-ups |
| CacheModel.GetAnswersIff | crates/arcadedb-protocol/src/cache.rs:275-293 | over every such history a get answers with what is current iff the clock stands before the second it was stored plus its ttl, and before the largest time |
| CacheModel.SetThenGet | crates/arcadedb-protocol/src/cache.rs:250-293 | a value just set is answered until its ttl has passed, and without a ttl always |
| CacheModel.GetDelTakesUnlessSwept | crates/arcadedb-protocol/src/cache.rs:297-319 | a getdel takes what was set, of any age, unless a clean-up took it first, which can only be past its deadline |
| CacheModel.HoldsIffSetAndNotSwept | crates/arcadedb-protocol/src/cache.rs:250-329 | the cache holds exactly what was set, not consumed since and not swept |
| CacheModel.SetHasThreeTokens | crates/arcadedb-protocol/src/cache.rs:337-339 | a valid key and a payload make a SET of exactly three tokens |
| CacheModel.KeyCharIff | crates/arcadedb-protocol/src/cache.rs:363-375 | exactly which characters a key may hold |
| CacheModel.RawValueIsTruncated | crates/arcadedb-protocol/src/cache.rs:16-18 | an unencoded value with whitespace would be stored as its first word |
| CacheModel.HexInverts | crates/arcadedb-protocol/src/cache.rs:400-426 | decoding inverts encoding |
| CacheModel.OnlyHexDecodes | crates/arcadedb-protocol/src/cache.rs:410-426 | a text that decodes is the encoding of its bytes |
| CacheModel.EncodeBytes | crates/arcadedb-protocol/src/cache.rs:400-408 | the loop over the bytes computes the encoding |
| CacheModel.TtlExtremes | crates/arcadedb-protocol/src/cache.rs:341-353 | no ttl never expires, a zero ttl is expired on arrival |
| CacheModel.Cache.Store | crates/arcadedb-protocol/src/cache.rs:250-270 | a set that reaches the server stores the stamped envelope under its key and nothing else; a bad key or failed command changes nothing |
| CacheModel.Cache.Load | crates/arcadedb-protocol/src/cache.rs:275-293 | a get answers and cleans up as specified, through tokens, hex and envelope |
| CacheModel.Cache.Consume | crates/arcadedb-protocol/src/cache.rs:297-319 | a getdel removes and answers as specified |
| CacheModel.Cache.Heal | crates/arcadedb-protocol/src/cache.rs:323-329 | clean-up removes exactly the key, or nothing when it fails |
| TestPoolModel.PoolStaysGood | crates/arcadedb-protocol/src/testutil.rs:216-290 | over every interleaving without a cancelled checkout: no two checkouts share a slot, free and owned slots are exactly the pool's, and no permit holder ever lacks a slot |
| TestPoolModel.PermitFindsSlot | crates/arcadedb-protocol/src/testutil.rs:229-241 | a permit always comes with a free slot |
| TestPoolModel.CancelLosesSlot | crates/arcadedb-protocol/src/testutil.rs:242-285 | a cancelled checkout's slot is neither free nor owned |
| TestPoolModel.LostStaysLost | crates/arcadedb-protocol/src/testutil.rs:229-290 | a slot that is neither free nor owned stays so under every act |
| TestPoolModel.CompleteIffNotCancelled | crates/arcadedb-protocol/src/testutil.rs:216-290 | after any run from a built pool, all slots are accounted for, unshared and none starved, iff no checkout was cancelled while setting up |
| TestPoolModel.CourseReturns | crates/arcadedb-protocol/src/testutil.rs:216-290 | a checkout that runs its course, or fails while setting up, leaves the pool exactly as it found it |
| TestPoolModel.HandedOutIsKept | crates/arcadedb-protocol/src/testutil.rs:242-285 | a checkout handed out keeps its slot and can no longer be cancelled |
| TestPoolModel.CancellationStarves | crates/arcadedb-protocol/src/testutil.rs:229-241 | with cancellation, a pool of any size is drained and the no-slot error is reached |
| TestPoolModel.TestPool.constructor | crates/arcadedb-protocol/src/testutil.rs:382-400 | one permit per slot, slots stacked so that the lowest is taken first |
| TestPoolModel.TestPool.PopSlot | crates/arcadedb-protocol/src/testutil.rs:229-241 | takes the top slot, or reports that there is none |
| TestPoolModel.TestPool.ReleaseSlot | crates/arcadedb-protocol/src/testutil.rs:288-290 | pushes exactly the checkout's slot back, before its permit goes |
| TransactionRetry.RunTransaction | crates/arcadedb-protocol/src/client/transaction.rs:221-264 | the loop ends at the one attempt that ends the run, with its result and the log of all attempts; the code after the loop is unreachable |
| TransactionRetry.RunEndsIff | crates/arcadedb-protocol/src/client/transaction.rs:221-264 | in terms of outcomes alone: a run ends with the first attempt that does not begin and then conflict, or with the last of retries + 1, saturating; and its result is that attempt's value or the first thing that went wrong |
| TransactionRetry.RunsAreAtomic | crates/arcadedb-protocol/src/client/transaction.rs:205-220 | at most retries + 1 transactions begin, and at most the 32-bit maximum; each that does not commit is rolled back; success returns the value of the single commit, failure commits nothing |
| TransactionRetry.SucceedsIff | crates/arcadedb-protocol/src/client/transaction.rs:221-264 | a run succeeds iff an allowed attempt succeeds after conflicts only |
| DecimalModel.DecimalReadsBack | crates/arcadedb-protocol/src/encode.rs:110-125 | every 96-bit mantissa of either sign comes back with its scale, on both sides of the 64-bit boundary |
| DecimalModel.DecodesIff | crates/arcadedb-protocol/src/record/types.rs:413-440 | a wire decimal decodes iff it has at most 16 bytes, a scale from 0 to 28 and a value of magnitude below 2 to the 96th |
| DecimalModel.TravelsInlineIff | crates/arcadedb-protocol/src/encode.rs:110-125 | exactly the mantissas of the signed 64-bit range travel as an integer, all others as 16 bytes |
| DecimalModel.PaddingKeepsValue | crates/arcadedb-protocol/src/record/types.rs:413-427 | for 1 to 16 bytes the sign-extended 128-bit value is the signed big-endian value |
| DecimalModel.FillBuffer | crates/arcadedb-protocol/src/record/types.rs:423-426 | the 16-byte buffer filled in place is the sign bytes followed by the given ones |
| DecimalModel.ToBytesValue | crates/arcadedb-protocol/src/encode.rs:115-119 | the big-endian bytes of a value that fits denote it |

## Left out

- Checksums and SHA-256: opaque tokens; nothing is claimed from their serialisation.
- The SQL text of diff actions, metadata and create-time clauses: actions are modelled as changes of the schema, and super-types as a set.
- Cascades of a dropped type on its sub-types, and index names that collide under `IF NOT EXISTS`: an index is its columns and kind.
- Kind-drift and TimeSeries-spec warnings, error message texts, log lines, revision rows and seeds: output only.
- The convergence theorems apply actions in diff order; that TimeSeries creations run first is modelled in the sync only.
- The names of value kinds and integer widths in decode errors.
- The diff batch is run statement by statement, so that a failure leaves any prefix; the real batch may be more atomic.
- Server calls still in flight when a runner dies take effect before the next attempt begins, or not at all.
- Overrides re-applied from a rollout file do not consult the registry; no exactly-once claim is made for them.
- Two runs in one process share a holder id; the lock model has one process per holder id.
- Widths of machine integers where only memory could exhaust them: brace and bracket depth, candidate numbers, string indices in bytes.
- `char::is_alphanumeric` beyond ASCII in identifier scanning, and multi-byte characters at slice boundaries.
- Floats, timestamps as times, JSON values, links, sets and tagged enums in records; `skip` and `skip_serializing_if` fields; the position of the flattened field among the others.
- Raw filter fragments and the `SET` clause builder: caller-owned text. Three-valued logic: a row answers each condition yes or no.
- Cache clients racing each other, lost command replies, `EXISTS`, `INCR` and batches; the envelope's JSON form is any lossless, non-empty serialisation.
- Transport, authentication, command line, directory reading, connection retry and stale-pool sweeping.
- SyncMeaning.HistoryMeansAuthored: under the two conditions of the next line, and over a fixed override list.
- PhaseEngineMeaning.ResumedMeansAuthored: a crash between a swap and its mark repeats that swap, so the claim is for runs without a repeat, and for auto-committed copies that absorb a replay.
- MigrationLock.LockExcludes: needs each holder id to claim at most once; the refresh counterexample shows why.
- SchemaConvergence.DiffConverges: a second diff is taken against the snapshot the first sync recorded; without a snapshot only the self-diff is claimed.
- RolloutRoundTrip.RenderedPlanReadsBack: sufficient for a whole plan; header lines, checksums and the splitting of sections have their exact conditions in `RolloutExactness`, while lines that look like markers, carriage returns and line breaks inside names are only ruled out.
- RecordFlatten.ZeroCopyIsClonedIff: when both decoders fail, the condition suffices for equal errors and is not claimed necessary: they may then fail at different fields, and whether two such errors are spelled alike depends on names and message texts, not on the map.
- CopyVerification.DocumentedMoveIff: a vertex type named FROM is set aside; `PairIff` covers every statement.
- SchemaParsing.SchemaOf: statements come already taken apart but for the qualified name; their text and the property clauses are `SqlText` and `AttributeBlock`.
