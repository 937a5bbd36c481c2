# A verified model of the Forge scaffold

Forge is a project scaffold with a generator (`cmd/forge`) and a small service. This Dafny project
models the parts whose correctness depends on interleavings, crashes and whole sequences of
operations, and proves what the repository promises about them. Each module names the files it
models. Run `dafny verify dfyconfig.toml`.

**Publishing an initialized project and recovering from a crash** (`Projects`, `Publishers`,
`PublisherRuns`, `Recovery`). `forge init` saves a full backup under a private name, renames it to a
fixed name, checks the project again, sets a flag in the backup's manifest, then overwrites and
deletes files and finally renames the backup away. `Publishers` is a state machine over single file
operations of any number of publishers, recoveries and editors; a process may stop between any two
steps and a write may be left torn; `PublisherRuns` shows which runs come to their end. `Recovery` is
the same code as loops over a class whose every file operation may fail, and keeps a trace of every
state of the disk it produces.

**Widgets, events and idempotent creates** (`WidgetHistory`, `WidgetDatabase`, `WidgetClaims`,
`WidgetRepository`, `Idempotency`). Transactions with row locks, READ COMMITTED visibility, `now()`
fixed at the start, and event numbers that are never reused. The theorems hold for every
interleaving of any number of transactions, purges and clock steps. `WidgetRepository` runs the Go
functions one statement at a time with other sessions taking any steps in between.

**The outbox relay** (`Outbox`, `Relay`). Rows, locks, and a count of what the publisher accepted,
for any number of relays with rejections, cancellations and crashes; then `ProcessBatch`, `drain`
and `PurgePublished` as loops, with other sessions taking any steps in between, or alone.

**The migration preflight** (`SqlTokens`, `SqlLexing`, `SqlTexts`, `Relations`, `Catalog`, `Preflight`). The
hand-written lexer, the texts that spell a statement, the map of relations that is updated by name,
and the catalog it has to agree with, where tables and indexes have identities.

**Smaller cores.** Nested marker stripping (`Markers`), renumbering migrations in place
(`Migrations`), writing several files with a rollback (`Changes`), log redaction (`Redaction`), and
the rate limiter's evicting map (`RateLimit`).

## Where the code does less than it says

- The check before the activation goes path by path and is not atomic with the activation. An edit
  that takes a path away from the snapshot is noticed if and only if it comes before the check of
  that very path (`Publishers.EditIsNoticedBeforeItsCheck`); later ones, also while other paths are
  still being checked, do not stop the publication and are lost whether it succeeds or is undone
  (`Publishers.UnnoticedEditIsLost`). Without such an edit an undone publication leaves the very tree
  at activation.
- The preflight reads literal table and index statements only. `Catalog.StepRefines` takes any
  statement together with any effect the database may have beside what the statement says, and
  proves that the map follows the catalog if and only if the statement is not an
  `ALTER INDEX t RENAME TO u` on a *table* `t` that has indexes, and the effect leaves the public
  relations, by name, kind and table, as the statement alone would. Where the effects only bring
  other names, such as the indexes of primary keys, the answer stays right about a resource with
  none of those names (`Preflight.HistoryAnswersForTheWords`). Otherwise:
  - after the misdirected rename, which PostgreSQL accepts, the map follows nothing; the answer goes
    wrong when `u` is dropped, and then for the names of its indexes
    (`Preflight.StaleIndexesAreRefused`);
  - `ALTER TABLE t DROP COLUMN a` drops the indexes on `a`: names that are free are refused
    (`Preflight.DroppedIndexIsRefused`);
  - `ADD CONSTRAINT n UNIQUE USING INDEX i`, `RENAME CONSTRAINT c TO n`, `SELECT .. INTO n`, the index
    of a primary key: names that are taken are accepted (`Preflight.RenamedIndexIsAccepted`,
    `Preflight.AddedTableIsAccepted`).
- `applyChanges` reports every rollback that fails, but not a new file whose write failed and whose
  removal failed too. `Changes.AllOrRolledBack` proves that this is the only way in which a path that
  no reported rollback failure names can differ, and `Changes.LeftoverIsReachable` gives the run.
- Evicting idle rate limiters is invisible exactly when `burst <= 180 * perSecond`
  (`RateLimit.ForgettingIsInvisible`); with a larger burst a client that drained its bucket gets a
  full one back too early.
- Renumbering migrations with distinct five-digit versions loses a file if and only if two
  neighbours in the sorted list have the same name after the digits and the second has the very
  version the first one gets (`Migrations.Folder.RenumberMigrations`). That takes versions which run
  from zero without a gap up to those two (`Migrations.CollisionsRunFromZero`), and happens
  (`Migrations.CollisionsExist`); with versions of at least
  one it cannot happen (`Migrations.WellNumberedIsClear`).

## Model

| member | source | states |
|---|---|---|
| Publishers.InvStep | cmd/forge/init_project.go:271-286 | every file operation of a publisher, a recovery or an editor, and every crash, keeps: one owner of the journal name, what its owner has checked, written or restored so far, and a tree explained by the history |
| Publishers.OneOwner | cmd/forge/init_recovery.go:54-86 | in every reachable state at most one process acts under the fixed journal name, which is taken while it does |
| Publishers.ActivationMatchesSnapshot | cmd/forge/init_project.go:271-281 | at activation every path of the owner's snapshot is as in the current tree, except where an editor wrote after the owner had checked that path |
| Publishers.SerialPublications | cmd/forge/init_project.go:265-287 | with publishers and recoveries only, the tree is what the successful publications left one after another, and each started from a tree equal to its snapshot |
| Publishers.RollbacksChangeNothing | cmd/forge/init_recovery.go:107-148 | publications that were undone can be dropped from the history without changing the tree it explains |
| Publishers.PreparationLeavesFilesAlone | cmd/forge/init_project.go:271-281 | before activation no step but an editor's changes a project file: no claim, failed recheck, crash or recovery of a prepared journal |
| Publishers.JournalSurvives | cmd/forge/init_recovery.go:107-148 | while a publication is neither finished nor undone the journal and the plan stay what they were at activation, through all crashes, retries and edits of other files, which its origin follows |
| Publishers.PublicationIsAllOrNothing | cmd/forge/init_project.go:280-287 | after activation, whatever torn writes, crashes, recoveries and edits of other files follow, the step that retires the journal leaves the whole published tree or the recovered one, which is the tree at activation with those edits if that matched the snapshot, as it did unless a named path was edited after its check |
| Publishers.RecoveredTree | cmd/forge/init_recovery.go:119-147 | a recovery that retires its journal has restored bytes and mode of every recorded path and removed every path that was only added |
| Publishers.RecoveryOnlyImproves | cmd/forge/init_recovery.go:119-147 | no step of a recovery, torn writes and its crash included, makes a correct path incorrect; the backup stays until all paths are correct; a path dealt with and not reported is correct |
| Publishers.RetriesOnlyImprove | cmd/forge/init_recovery.go:107-148 | the set of correct paths only grows over any number of attempts, each cut anywhere |
| PublisherRuns.RecoveryCompletes | cmd/forge/init_recovery.go:109-148 | from every state an interrupted publication can leave, a recovery whose operations succeed, though each tears its file before, ends with all recorded paths restored and no other path changed |
| PublisherRuns.PreparedRecoveryCompletes | cmd/forge/init_recovery.go:114-116 | from every state that a publisher leaves when it stops before activation, a recovery without failures frees the fixed name, so that the next publisher can claim it, and touches no file |
| PublisherRuns.EveryCrashIsRecovered | cmd/forge/init_recovery.go:107-148 | no reachable state is stuck: whoever holds the journal may stop, and a recovery then frees the name and brings the project back |
| PublisherRuns.PublicationCompletes | cmd/forge/init_project.go:395-420 | from its activation, and from any point after it, a publisher whose operations succeed ends with the whole published tree and no journal, whatever its files were torn to on the way |
| PublisherRuns.UndoCompletes | cmd/forge/init_project.go:282-285 | at any point after its activation a publisher can fail and undo everything itself |
| PublisherRuns.FailedAttemptKeepsBackup | cmd/forge/init_recovery.go:141-143 | any path can resist a recovery, and that attempt then never retires the backup |
| PublisherRuns.CheckedPathsMatch | cmd/forge/init_project.go:274-281 | a path that no editor has written since the publisher's last check of it is at activation as the snapshot says |
| Publishers.EditIsNoticedBeforeItsCheck | cmd/forge/init_project.go:274-282 | an edit that takes a named path away from the snapshot leaves the activation reachable, without another edit of that path, if and only if the path had been checked already |
| Publishers.UnnoticedEditIsLost | cmd/forge/init_project.go:274-287 | an edit that the activation overlooks is lost however the publication ends |
| Publishers.RecheckWindowIsReachable | cmd/forge/init_project.go:274-282 | a three-step run reaches a publisher that has checked its path, and an edit then does not stop it |
| Projects.RestoreUndoesAnything | cmd/forge/init_recovery.go:119-140 | restoring a journal brings back the tree it was taken from, whatever happened to the paths it names |
| Recovery.Project.WriteProjectFiles | cmd/forge/init_project.go:345-377 | writes all files with bytes and mode, or fails with only those paths touched, and every state on the way is recorded |
| Recovery.Project.ReplaceProjectFiles | cmd/forge/init_project.go:395-420 | success is the published tree; failure touches only paths of the two snapshots |
| Recovery.Project.ValidatePublication | cmd/forge/init_project.go:290-315 | accepts only if every snapshot path is unchanged and every new path is free, and then does unless an operation fails |
| Recovery.Project.SaveProjectRecovery | cmd/forge/init_recovery.go:50-86 | a complete backup gets the fixed name, only if that was free; otherwise nothing changes |
| Recovery.Project.ActivateProjectRecovery | cmd/forge/init_recovery.go:25-45 | flips the manifest in one step or not at all |
| Recovery.Project.DiscardProjectRecovery | cmd/forge/init_recovery.go:224-231 | takes the journal away in one step; a clean-up that fails later is reported although the name is free |
| Recovery.Project.RestoreProjectFile | cmd/forge/init_recovery.go:204-219 | a correct file is not touched, and success means bytes and mode are as recorded |
| Recovery.Project.RecoverProject | cmd/forge/init_recovery.go:109-148 | a prepared journal is discarded without touching files, and the name is free when no operation fails; a publishing one keeps its backup unless every path is restored, every path not reported is correct, and no state on the way loses a correct path |
| Recovery.Project.PublishOrUndo | cmd/forge/init_project.go:282-287 | every state on the way is the whole new tree, the recovered old one, or one a recovery can bring back; the outcome tells which, and why an undoing is incomplete |
| Recovery.Project.PrepareProject | cmd/forge/init_project.go:265-287 | goes on only if the last validation, made under the fixed journal name, found every snapshot path unchanged and every new one free; rejected or unactivated runs change no project file, and a rejected one leaves the name free when no operation fails; activated ones end published, undone or recoverable, over the tree others last left |
| WidgetDatabase.RowsStep | internal/modules/widget/store.go:55-79 | every statement, commit, rollback and purge keeps: each widget's committed events fold to its row, and an open transaction's event number exceeds all committed ones of its widget |
| WidgetDatabase.HistoryExplainsTable | internal/modules/widget/store.go:40-171 | for every interleaving, folding one widget's committed events in number order gives exactly its row, and they read created, updated*, then at most one deleted, all with one time of creation |
| WidgetHistory.FoldTellsShape | internal/modules/widget/store.go:120-171 | a history that folds to anything has the promised shape, and its last event tells the state |
| WidgetHistory.AppendKind | internal/modules/widget/store.go:73-79 | an event committed late, with a number below other widgets' events, still comes last in its own widget's history |
| WidgetClaims.ClaimsStep | internal/idempotency/queries.sql:1-17 | every step keeps: a stored key records one committed claim, claims of one key do not overlap, and a claim not yet run out is still stored |
| WidgetClaims.OneCreatePerClaim | internal/modules/widget/idempotent.go:143-177 | as many widgets are committed through a key as it was claimed, and each claim was made when all earlier ones had run out |
| WidgetClaims.LiveClaimShutsOut | internal/idempotency/queries.sql:5-13 | while a claim is live no other create of its key can commit, and whoever asks for the key is refused |
| WidgetClaims.LookupFindsLiveClaims | internal/idempotency/queries.sql:1-3 | in every reachable state a request finds a stored answer if and only if some claim of its subject and key has not run out |
| WidgetClaims.LiveClaimAnswers | internal/idempotency/idempotency.go:60-72 | a live claim answers the same call with the stored body, and a call with another path or request body with a conflict |
| WidgetClaims.RepliesMatchTheirClaim | internal/modules/widget/idempotent.go:41-46 | a 201 carries the body its claim stored, and reaches only the subject that made the claim, with the same key, path and request body |
| WidgetClaims.RepliesOfAClaimAgree | internal/modules/widget/idempotent.go:76-122 | all 201 bodies sent for one claim are identical, and go to the same call |
| WidgetClaims.LoserLeavesNothing | internal/modules/widget/idempotent.go:143-177 | a request that is refused the key leaves neither its widget nor its event, then or ever |
| WidgetRepository.Repository.Write | internal/modules/widget/store.go:40-171 | a change and its event are committed together, or the transaction is rolled back; not found means that the row was missing when the statement met it; a row that is there and free is changed, keeps its time of creation, and is updated at the transaction's start |
| WidgetRepository.Repository.ChangeAndEnqueue | internal/modules/widget/store.go:120-171 | the row change is the one asked for, of the row as the statement met it, and its event is in the same transaction; without faults it fails exactly on a row missing then, or one still held by another open transaction when the wait is given up |
| WidgetRepository.Repository.CreateIdempotent | internal/modules/widget/idempotent.go:143-177 | widget, event and stored response are committed together, with a claim that keeps the response until it expires, or nothing is |
| WidgetRepository.Repository.MaybeReplay | internal/modules/widget/idempotent.go:100-122 | answers with the body or the conflict of a live claim of the request's key, or with nothing when there is none |
| WidgetRepository.Repository.HandleCreate | internal/modules/widget/idempotent.go:76-96 | a replay comes from a claim that is live, and a live claim is replayed at once and nothing is begun; a create is answered with what it committed; a refused one from the row that refused it, unless that has run out; without faults the one error is a key still held by another open transaction |
| WidgetRepository.Repository.PurgeExpired | internal/idempotency/idempotency.go:74-82 | removes exactly the key rows that have run out, but for those an open upsert is replacing, and returns their number |
| WidgetRepository.LiveRowsStep | internal/idempotency/queries.sql:5-17 | no step removes or replaces a key row that has not run out |
| Idempotency.RowKeyIsInjective | internal/modules/widget/idempotent.go:34-46 | two callers share a stored key only if they are the same subject with the same key |
| Idempotency.EscapedApart | internal/modules/widget/idempotent.go:37-46 | the subject is escaped character by character, and one without ':' and '%' keeps the row key it had |
| Idempotency.FrameIsInjective | internal/idempotency/idempotency.go:45-56 | lists of parts of any count that frame to the same bytes are the same list |
| Idempotency.LengthRoundTrip | internal/idempotency/idempotency.go:49-52 | every length below 2^64 is read back from its eight bytes |
| Idempotency.Hash | internal/idempotency/idempotency.go:47-56 | the bytes given to the hasher are every part behind its length |
| Outbox.InvStep | internal/outbox/outbox.go:154-204 | every step of any relay keeps: open batches hold distinct unpublished rows nobody else holds, and acceptances are paid for by a publication, an open batch or a rolled-back one |
| Outbox.NothingIsLost | internal/outbox/outbox.go:154-204 | a row marked published was accepted, and every committed event is still there unpublished or was accepted |
| Outbox.DuplicatesNeedRollbacks | internal/outbox/queries.sql:5-10 | two open batches never hold one message, and it is accepted at most once more than batches holding it were rolled back |
| Outbox.PurgeDropsOnlyPublished | internal/outbox/queries.sql:30-38 | purging removes one published, accepted row and changes nothing else |
| Outbox.CommittedBatchAccounts | internal/outbox/queries.sql:12-28 | fetched = marked + backed off with one more attempt, and no other row changes |
| Outbox.BackoffGrowsToAnHour | internal/outbox/queries.sql:17-28 | the waits double from two seconds, never shrink, and stop at one hour from the twelfth rejection |
| Relay.Relay.Select | internal/outbox/queries.sql:5-10 | the first rows in id order, up to the limit, that are unpublished, not backed off, and in no open batch |
| Relay.Relay.ProcessBatch | internal/outbox/outbox.go:154-204 | whatever others do meanwhile, a settled batch offered each due row that it held to the publisher once, in order; it marks those that were taken at its own time, and gives each rejected one one more attempt and its new due time; alone, a batch that is not full leaves no other due row, and it changes nothing else, and nothing at all otherwise unless a commit was lost |
| Relay.CommitSettlesOwn | internal/outbox/queries.sql:12-28 | each fetched row is published or backed off, and no other becomes published |
| Relay.OwnKeptStep | internal/outbox/queries.sql:5-10 | no step of another session touches an open batch or its locked rows |
| Relay.Relay.Drain | internal/outbox/outbox.go:105-123 | ends for every batch size while no new event is committed, whatever other relays do; every batch but the last is full; alone, it counts what it published (no more than that if a commit was lost), and leaves no unpublished row that is due when it met no rejection |
| Relay.Relay.Enqueue | internal/outbox/outbox.go:50-54 | a committed event gets an identifier above all earlier ones, and is due at once |
| Relay.Relay.PurgePublished | internal/outbox/outbox.go:129-143 | removes exactly the expired published rows, and returns their number |
| Relay.CommitSettles | internal/outbox/outbox.go:159-203 | alone, a batch that was not full leaves no unpublished row that is due but those it rejected |
| Relations.Tracker.ApplyRelation | cmd/forge/resource_schema.go:87-134 | one relation of a statement takes its effect, and tells what follows |
| Relations.Tracker.ApplyRelationStatement | cmd/forge/resource_schema.go:69-140 | the in-place loop computes the statement's effect on the map |
| Relations.Tracker.ApplyMigration | cmd/forge/resource_schema.go:44-53 | splits the tokens at semicolons and applies the statements in order |
| Relations.ValidateResourceTable | cmd/forge/resource_schema.go:18-62 | given the migrations' texts, reports a conflict if and only if the table or list index name is taken in the map their tokens leave |
| Catalog.StatementRefines | cmd/forge/resource_schema.go:69-151 | when the database does what a statement says, the map has exactly the catalog's names, kinds and current owners, if and only if it is not an ALTER INDEX that renames a table with indexes |
| Catalog.StepRefines | cmd/forge/resource_schema.go:69-151 | for every statement and whatever the database does beside it, the map follows if and only if the statement is not misdirected and the effect leaves the relations as the statement alone would |
| Catalog.MigrationsRefine | cmd/forge/resource_schema.go:44-53 | for every list of accepted steps the map follows the catalog all the way if and only if every step is faithful |
| Catalog.OpenIsSame | cmd/forge/resource_schema.go:46-53 | the semicolon after the last statement does not matter |
| Catalog.ReadOther | cmd/forge/resource_schema.go:74-84 | words that do not create, drop or alter a table or an index leave the map alone |
| Preflight.PreflightIsExact | cmd/forge/resource_schema.go:18-62 | after faithful migrations a resource is refused exactly when a public relation has its table or list index name |
| Preflight.PreflightReadsTexts | cmd/forge/resource_schema.go:18-62 | the same from the source texts, written in any letter case and layout, with comments, literals and operators between the tokens |
| Preflight.PreflightAnswersForTheWords | cmd/forge/resource_schema.go:18-62 | after one more statement the answer is about what the statement says, whatever the database did |
| Preflight.HistoryAnswersForTheWords | cmd/forge/resource_schema.go:18-62 | for a whole history with any effects, whose words alone are acceptable and not misdirected, the preflight answers for the words; it is right about a resource if and only if all effects together make no difference for its names |
| Preflight.WhenTheAnswerIsWrong | cmd/forge/resource_schema.go:18-62 | it is wrong if and only if the side effect makes the difference for the resource's names |
| Preflight.DroppedIndexIsRefused | cmd/forge/resource_schema.go:117-133 | a list index name that an unread statement freed is still refused |
| Preflight.RenamedIndexIsAccepted | cmd/forge/resource_schema.go:117-133 | a name that an unread statement gave to an index is still accepted |
| Preflight.AddedTableIsAccepted | cmd/forge/resource_schema.go:74-84 | a name that an unread statement gave to a new table is still accepted |
| Preflight.StaleIndexesAreRefused | cmd/forge/resource_schema.go:109-131 | after a misdirected rename and a drop under the new name, refused are the names in the catalog and those of the dropped table's indexes |
| Preflight.ExampleIsFaithful | cmd/forge/resource_schema.go:44-53 | a table and an index on it are a faithful history |
| Catalog.TracksDropTable | cmd/forge/resource_schema.go:111-119 | dropping a table takes exactly its own indexes, whatever it is called by then |
| SqlTokens.SqlTokens | cmd/forge/resource_schema.go:153-220 | the loop ends for every input with the tokens that the lexical rules give; which ones these are is told by the round trip of texts |
| SqlTokens.ReadBlock | cmd/forge/resource_schema.go:162-175 | block comments nest |
| SqlTokens.ReadQuoted | cmd/forge/resource_schema.go:176-192 | a doubled quote is one character of the token |
| SqlTokens.ReadDollar | cmd/forge/resource_schema.go:193-204 | a dollar quote with a closing tag is skipped as a whole, any other `$` alone |
| SqlLexing.TokensAtBoundary | cmd/forge/resource_schema.go:155-220 | where nothing is open and any white space follows, the tokens of a text are those of its two parts |
| SqlLexing.NamesRoundTrip | cmd/forge/resource_schema.go:176-192 | any list of names, printed with quotes doubled and separated by spaces, is read back as it was |
| SqlTexts.TextRoundTrip | cmd/forge/resource_schema.go:155-220 | every text that spells a list of tokens, with words in any letter case, names in quotes and punctuation, and with white space, operators, literals and comments between them, is read as exactly these tokens |
| SqlTexts.EveryListHasAText | cmd/forge/resource_schema.go:176-192 | every list of tokens can be written |
| SqlLexing.BlankInsertion | cmd/forge/resource_schema.go:155-220 | skipped text inserted at such a boundary, between any white space, changes no token |
| SqlLexing.BlanksJoin | cmd/forge/resource_schema.go:155-220 | skipped texts joined by white space are skipped text again |
| SqlLexing.LineCommentInsertion | cmd/forge/resource_schema.go:158-161 | a line comment changes no token, whatever stands on the next line |
| SqlLexing.LineCommentIsBlank | cmd/forge/resource_schema.go:158-161 | a line comment is skipped text |
| SqlLexing.BlockCommentIsBlank | cmd/forge/resource_schema.go:162-175 | a well-nested block comment of any depth is skipped text |
| SqlLexing.LiteralIsBlank | cmd/forge/resource_schema.go:176-192 | a single-quoted literal is skipped text |
| SqlLexing.DollarBodyIsBlank | cmd/forge/resource_schema.go:193-204 | a dollar-quoted body is skipped text |
| SqlLexing.IndexIsFirst | cmd/forge/resource_schema.go:199-199 | the search for a closing tag finds its first occurrence |
| Markers.Strip | cmd/forge/init.go:476-511 | the loop with stack and counter computes the result of the line-by-line rules |
| Markers.FirstMarker | cmd/forge/init.go:129-129 | a line's marker is the first place where one of the two words and a name in lower-case letters stand between word boundaries |
| Markers.InitBlocksGo | cmd/forge/init.go:489-489 | whatever is dropped, nothing inside a block of the generator itself is kept |
| Markers.StripAcceptsNestedBlocks | cmd/forge/init.go:472-508 | succeeds if and only if the lines form properly nested blocks with known names |
| Markers.StripKeepsTheRest | cmd/forge/init.go:472-510 | the output is the tidied text of exactly the lines all of whose enclosing blocks are kept, in order |
| Markers.DroppingMoreKeepsLess | cmd/forge/init.go:472-510 | dropping more slices leaves a subsequence |
| Markers.CapIsCollapse | cmd/forge/init.go:591-595 | collapsing whole runs is dropping every newline after two others |
| Markers.TidyIsIdempotent | cmd/forge/init.go:510-510 | no leading newline, no run of three, and tidying again changes nothing |
| Markers.StripIsFinal | cmd/forge/init.go:476-511 | stripping the output again, whatever is dropped then, changes nothing |
| Migrations.Folder.RenumberMigrations | cmd/forge/init.go:563-589 | for distinct five-digit versions a complete run loses a file if and only if two neighbours collide, and a run is complete unless they do or a rename fails; without a collision nothing is lost even then, and every file dealt with has its new name and its content |
| Migrations.WellNumberedIsClear | cmd/forge/init.go:560-562 | versions of at least one never collide |
| Migrations.TargetHits | cmd/forge/init.go:575-585 | a new name is a later file's name exactly at a collision |
| Migrations.TargetIsFree | cmd/forge/init.go:583-585 | a file that has to move finds its new name taken exactly when it collides |
| Migrations.RenumberedKeepsFiles | cmd/forge/init.go:575-587 | without a collision every file ends with the next version, its own rest of the name and its own content |
| Migrations.RenumberedIsExact | cmd/forge/init.go:575-587 | the migrations of the result are exactly those files, with versions 1 to n |
| Migrations.RenumberedKeepsOrder | cmd/forge/init.go:560-562 | sorting the new names gives the order of the old ones |
| Migrations.CollisionsRunFromZero | cmd/forge/init.go:575-587 | a collision takes versions that run from zero without a gap up to the two files |
| Migrations.CollisionsExist | cmd/forge/init.go:575-587 | two files with versions zero and one and the same rest collide |
| Changes.Checkout.ApplyChanges | cmd/forge/resource.go:244-266 | the two loops compute the outcome of applying and undoing in order, for every pattern of faults |
| Changes.WrittenOrNot | cmd/forge/resource.go:268-301 | a change succeeds exactly when none of its steps fails and a new path is free, and is then in place; else the tree is as before, unless removing a half-written new file fails too |
| Changes.RollbackRestores | cmd/forge/resource.go:250-262 | rolling back restores bytes and mode of every path except those it reports |
| Changes.UndoKeepsMode | cmd/forge/resource.go:253-256 | undoing a replacement writes bytes only |
| Changes.AllOrRolledBack | cmd/forge/resource.go:242-266 | every change is installed, or every path not named by a rollback failure is as before, but for a new file whose write and clean-up failed; with no rollback failure the tree is as before if and only if there is no such file |
| Changes.InstalledInPlace | cmd/forge/resource.go:244-266 | for distinct paths success puts every change in place and moves nothing else |
| Changes.NewFilesNeverOverwrite | cmd/forge/resource.go:289-292 | a file no change claims to replace is never touched, whatever fails |
| Changes.RollbackReportsFailures | cmd/forge/resource.go:250-262 | the rollback tries every change, newest first, and its report names exactly the paths whose step failed |
| Changes.LeftoverIsReachable | cmd/forge/resource.go:293-299 | a half-written new file can stay behind while the error names no rollback failure |
| Redaction.Handle | internal/observability/redact.go:36-55 | the loop with early exit passes on the record or the rebuilt one |
| Redaction.RedactOne | internal/observability/redact.go:97-113 | the loop redacts an attribute recursively |
| Redaction.HandlerWithAttrs | internal/observability/redact.go:57-63 | the loop gives the next handler every attribute redacted, in order |
| Redaction.DeriveLogger | internal/observability/redact.go:57-67 | a logger derived step by step tells the next handler what the chain does |
| Redaction.FastPathIsSlowPath | internal/observability/redact.go:36-55 | passing a record through gives what rebuilding it would have given |
| Redaction.NothingSensitiveLeaves | internal/observability/redact.go:19-113 | whatever the logger chain and the record, at every depth of what the next handler is given each value under a sensitive key, and each below a sensitive group name, is "REDACTED" |
| Redaction.NonInterference | internal/observability/redact.go:36-113 | logger chains and records that differ only in values under sensitive keys or below sensitive group names give the next handler the same |
| Redaction.HidesExactlyTheSensitive | internal/observability/redact.go:36-113 | and only then: nothing else is hidden |
| RateLimit.IpLimiters.Get | internal/server/middleware.go:263-282 | sweeps idle clients once a minute in any order, and returns the stored or a full limiter |
| RateLimit.TakesOne | internal/server/middleware.go:203-214 | a request is allowed exactly when its client has a token left, and takes one; no other bucket changes; more than a minute after the last sweep exactly the clients not seen for three minutes are forgotten |
| RateLimit.ForgettingIsInvisible | internal/server/middleware.go:246-282 | the map that evicts answers every request sequence like one that never does, if and only if three minutes fill a bucket |
| RateLimit.IdleIsFull | internal/server/middleware.go:267-273 | a client that may be evicted has a full bucket |
| RateLimit.MapStaysBounded | internal/server/middleware.go:263-282 | after every request, every stored client was seen within the last four minutes |
| RateLimit.VolleyAllowed | internal/server/middleware.go:208-211 | requests at one time are all allowed exactly when the bucket holds as many tokens |

## Left out

Assumed of the surroundings:

- Recovery is started by hand, one at a time, after the process that left the journal has stopped; editors keep off the project's own files while a publication is in progress.
- One monotone clock for application and database; integers are unbounded, and times are whole seconds in the relay and reals in the rate limiter.
- SHA-256 digests of different bytes differ: requests are compared by the bytes that are hashed. New widget identifiers are fresh.
- Process crashes only: completed operations are durable, and fsync ordering under power loss is not modelled.

Not modelled:

- Directories, symbolic links, umask, path validation, temporary files left behind by a failure, and the comparison of the list of files tracked by git; paths are flat.
- The clean-up of retired backups, beyond that it may fail, and the text of reports and errors.
- JSON encoding, HTTP headers, authorization, and the checks on the length of the key and the empty subject before the idempotent create.
- Migrations are given as sorted lists (of names, or of tokens up to the Down marker); reading and sorting a directory is not modelled.
- Which effect PostgreSQL has beside a statement: `Catalog.Outcome` allows any that leaves a consistent catalog. Escape strings, and names that spell a skipped word or a semicolon (`Catalog.Writable`).
- Bytes are characters; lower-casing is ASCII, which is all the lexer applies it to.
- LogValuers that do not end within the library's limit or that panic; levels and messages of records.
- Rounding of floating-point tokens and durations, and requests that overlap between `get` and `Allow`.

Weaker than the code:

- WidgetRepository.Repository.HandleCreate: nothing is promised about how long a transaction that holds the key keeps it.
- Redaction.HidesExactlyTheSensitive: asks that no group, also behind a LogValuer, holds an attribute that resolves to an empty group; such attributes are dropped by the library. `Redaction.NonInterference` needs this only of the record's own groups, where the library ensures it.
- Preflight.HistoryAnswersForTheWords: nothing is stated about histories that are accepted only because of an effect, as when a statement names the index of a primary key.
- SqlLexing.DollarBodyIsBlank: the closing tag must not begin inside the body, as PostgreSQL demands too.
- Migrations.Folder.RenumberMigrations: nothing is stated about migrations without distinct five-digit versions.
- Migrations.RenumberedKeepsOrder: for fewer than 100000 migrations, which versions of at least one imply; the hundred thousandth would get six digits.
- Changes.AllOrRolledBack: asks that the recorded bytes and mode of replaced files are right; nothing is asked of new files.
