# Life Engine Core: a verified model

This project models the parts of Life Engine Core that carry hard guarantees and proves them in Dafny 4.11.
`dafny verify dfyconfig.toml` checks everything.

| files | what they model |
|---|---|
| `SqlText`, `SqlGrammar`, `Like`, `PgFilter`, `PgMeaning`, `PgQuery` | the PostgreSQL filter compiler: the text of the WHERE clause, its lexing and parsing by the server, three-valued evaluation, and `ILIKE` |
| `PgDocument`, `PgOrder`, `PgPath` | what the clause selects among stored JSON documents, also under any order of evaluation, and field names as keys or nested paths |
| `Search`, `SearchProcessor` | the batched search index and the task that feeds it from the message bus |
| `Storage`, `Sync`, `Federation` | the `plugin_data` table, the application of remote changes, and the pull loop with a federation peer |
| `FederationRuns`, `FederationLosses`, `FederationMirror` | the pull loop against the endpoint that serves changes, over all runs of both instances |
| `Household`, `HouseholdRuns`, `HouseholdAccepts` | the household store, and every interleaving of its locked sections |
| `RateLimit` | the plugin host's fixed-window limiter |
| `DavText`, `VCardRoundTrip` | vCard escaping, folding, unfolding and parsing |
| `Conflict` | three-way field merge and last-write-wins |
| `Migration` | SQLite to PostgreSQL migration |
| `Quarantine` | storage behind schema validation, and reprocessing |
| `Config` | JSON patch merging and environment overrides |
| `Text` | strings: replace, join, split, decimal numbers |

Code that updates state is a class or a loop with invariants, proved equal to a specification function; the
promises are lemmas about those functions, over all inputs, all runs or all interleavings.

Identifiers that the program draws at random, the time, the clock, the peer's answers, what becomes of each
storage and index-writer call, JSON number and boolean parsing, lower-casing, numeric casts and the case relation of `ILIKE` are parameters.

## Where the code does less than its documentation says

Each of these is a theorem with the exact condition.

- The table's primary key is the record id alone, so a row of any other plugin or collection with the same id blocks
  the federated copy for good (`Federation.ConvergesIff`, `Federation.SecondPeerIsBlocked`).
- The endpoint that serves changes reads the clock for the cursor after it has listed the rows, a write takes its stamp
  before it waits for the connection, and the pull loop moves the cursor on although storage did not write a record. A write is
  lost exactly when it lands between listing and cursor or with a stamp at or before a cursor given out, when the limit
  of 1000 leaves it out of the page, when the table does not take its version, or when storage does not write it
  (`FederationLosses.WriteIsLostIff`, `FederationLosses.PullHidesIff`, `FederationMirror.NoteIsLost`). It stays lost until the
  record is written again, erased or the cursors are lost (`FederationLosses.HiddenStays`).
- That endpoint sends only updates, so a record deleted at the peer agrees with the copy exactly when there was none
  (`FederationMirror.TimelyPullMirrorsIff`, `FederationMirror.NothingIsRemoved`).
- A record deleted and created anew starts at version 1: its old copy stays until the writes since outnumber the local
  version, and exactly then a pull replaces it (`FederationMirror.RecreatedIsIgnored`,
  `FederationMirror.RecreatedIsCopiedIff`).
- A role update that overlaps a change of household is written to the household left behind, and still reports success
  (`HouseholdRuns.UpdateTakesEffectIff`, `HouseholdRuns.UpdateIsLost`, `HouseholdRuns.UpdateIsReached`).
- A flush of the search index trusts the counter, which bulk indexing and removal skip: after a bulk or a removal whose
  commit fails it shows everything exactly when the counter is not zero or nothing is queued (`Search.FlushEmptiesIff`,
  `Search.StrandedIff`). The processor passes over such failures and can shut down with a deletion unseen
  (`SearchProcessor.FlushedIsTaken`, `SearchProcessor.DeletionIsStranded`).
- A variable that overrides a setting is lost to one that names a path above or below its own and sorts after it
  (`Config.OverrideHoldsIff`, `Config.TableReplacesValue`).
- The drain loop of the search processor ends at a lag notice and loses the events behind it
  (`SearchProcessor.DrainIsCompleteIff`).
- The migration casts its offset to 32 bits, so a collection is paged through exactly once only up to 4 294 967 500
  rows (`Migration.VisitsOnceIff`) and into an empty target the migration commits exactly within that size
  (`Migration.EmptyTargetCommitsIff`). It does not copy owner and household (`Migration.RowSurvivesIff`). It
  compares counts only, so a commit is a complete copy exactly when the rows already in the migrated collections were copies
  (`Migration.CommitIffComplete`, `Migration.StaleRowIsCommitted`).
- No transaction holds the statements of a storage call together, so a call can write and then report a failure. A
  create or update has written whenever it reports a place, and may have when it reports none
  (`Quarantine.AcceptsIff`); conservation goes by what was written (`Quarantine.RunConserves`).
- An update of an entry in the quarantine collection loses the record held there exactly when it names the entry's
  collection and version, its data is valid and stands for something else, and the call writes
  (`Quarantine.EntryIsLostIff`, `Quarantine.NoteIsOverwritten`).
- The vCard writer does not escape carriage returns and the reader takes them for line breaks
  (`VCardRoundTrip.RoundTripIff`).
- A user who is pushed into a household that lists them by then, through an earlier or a concurrent accept, keeps the
  role of the first listing (`HouseholdRuns.AcceptGivesRoleIff`, `HouseholdRuns.RoleAfterAcceptIff`).
- On equal timestamps two replicas that resolve a conflict by last-write-wins swap their data, objects included
  (`Conflict.LastWriteWinsAgreesIff`, by collection `Conflict.CollectionAgreesIff`).
- `data->>'a.b'` reads the top-level field named `a.b`, although the comment on field names speaks of nested paths: the
  two readings agree on every document exactly when the name has no dot (`PgPath.ReadsPathIff`,
  `PgPath.EqualityReadsPathIff`). The model follows the code.

- An equality filter compares texts. Asked for null it is bound to the empty text, so it never accepts a null and accepts
  the empty string (`PgDocument.NullEqualityIff`); a boolean and the string of its word are the same to it
  (`PgDocument.BoolEqualityIff`, `PgDocument.StringEqualityIff`).

## Model

| member | source | states |
|---|---|---|
| Like.ContainsPatternIsSubstring | apps/core/src/pg_storage.rs:770-775 | for every term and text, `%` + escaped term + `%` matches exactly when the term occurs in the text, up to the case relation |
| Like.EscapeLikeStep | apps/core/src/pg_storage.rs:770-775 | the three chained replacements are one pass over the characters |
| SqlText.LexesJoin | apps/core/src/pg_storage.rs:792-845 | rendered fragments joined by AND or OR lex back to exactly their tokens; a valid field name never leaves its quotes |
| SqlText.LexesAtom | apps/core/src/pg_storage.rs:765-827 | each rendered condition lexes to its own tokens whatever follows it |
| SqlGrammar.ReadsBack | apps/core/src/pg_storage.rs:829-845 | with AND binding tighter than OR, the text of any clauses parses to the intended tree at any nesting |
| PgMeaning.CompileValid | apps/core/src/pg_storage.rs:789-845 | compiled clauses have only valid field names and no empty group |
| PgMeaning.CompileInOrder | apps/core/src/pg_storage.rs:781-846 | placeholders are consecutive from the counter, used once each, left to right, one per parameter |
| PgMeaning.CompiledIffLeaf | apps/core/src/pg_storage.rs:830-845 | a group vanishes exactly when it has no leaf on a valid field at any depth |
| PgMeaning.FiltersDenote | apps/core/src/pg_storage.rs:781-846 | for every filter tree and row, the clauses under three-valued logic are true exactly when the filters hold directly, and fail exactly when a numeric cast does |
| PgMeaning.LeafDenotes | apps/core/src/pg_storage.rs:788-827 | one compiled leaf with its bound parameter means what the leaf means, a missing field counting as false |
| PgQuery.PushEqualities | apps/core/src/pg_storage.rs:788-795 | the equality loop appends exactly the specified text and parameters, whose meaning is `PgDocument.EqualityMeans` |
| PgQuery.PushComparisons | apps/core/src/pg_storage.rs:798-816 | the comparison loop appends exactly the specified text and parameters |
| PgQuery.PushTexts | apps/core/src/pg_storage.rs:819-827 | the text-search loop appends exactly the specified text and parameters |
| PgQuery.PushGroups | apps/core/src/pg_storage.rs:830-845 | a group loop appends one parenthesised clause per non-empty group and threads parameters and counter through the recursion |
| PgQuery.BuildPgFilterClauses | apps/core/src/pg_storage.rs:781-846 | fragments, parameters and counter are advanced by exactly the compiled output |
| PgQuery.WhereReadsBack | apps/core/src/pg_storage.rs:622-634 | the whole WHERE text is read as the conjunction of scope and filters |
| PgQuery.WhereMeans | apps/core/src/pg_storage.rs:622-634 | a row is accepted exactly when it is in the plugin and collection and the filters hold; later parameters change nothing |
| PgQuery.WhereSelects | apps/core/src/pg_storage.rs:622-634 | among all stored JSON documents the text accepts exactly those of the plugin and collection that satisfy the filters, stated on the filters' own fields, operators and values |
| PgDocument.SatisfiesMeans | apps/core/src/pg_storage.rs:781-857 | the filters on the texts of a row say the same as the filters on the typed values of the document, at any nesting |
| PgDocument.NumbersMean | apps/core/src/pg_storage.rs:798-816 | the casts succeed exactly when every comparison is between numbers |
| PgDocument.EqualityMeans | apps/core/src/pg_storage.rs:788-795 | an equality filter holds exactly when the field is written with the text of its value: true, false, the string, the number |
| PgDocument.ComparisonMeans | apps/core/src/pg_storage.rs:798-816 | a comparison holds exactly when field and value are numbers in that relation |
| PgDocument.TextMeans | apps/core/src/pg_storage.rs:819-827 | a text search holds exactly when the field's text contains the term |
| PgDocument.BoolEqualityIff | apps/core/src/pg_storage.rs:849-857 | a boolean filter accepts exactly that boolean, the string of its word, and other values written so |
| PgDocument.StringEqualityIff | apps/core/src/pg_storage.rs:849-857 | a string filter accepts exactly that string, the boolean of that word, and other values written so |
| PgDocument.NullEqualityIff | apps/core/src/pg_storage.rs:849-857 | a null filter never accepts a null: exactly the empty string and values written with no text |
| PgOrder.WhereInAnyOrder | apps/core/src/pg_storage.rs:622-634 | in whatever order the server evaluates and whichever operands it leaves out, an outcome that is no failure accepts exactly the rows in scope for which the filters hold, and a failure needs a failing cast |
| PgOrder.DocumentsInAnyOrder | apps/core/src/pg_storage.rs:622-634 | the same of stored documents |
| PgOrder.StrictIsPossible | apps/core/src/pg_storage.rs:829-845 | evaluating every operand is one of those orders |
| PgPath.ReadsPathIff | apps/core/src/pg_storage.rs:762-767 | the key of a field and the nested path agree on every document exactly when the name has no dot |
| PgPath.EqualityReadsPathIff | apps/core/src/pg_storage.rs:788-795 | an equality filter decides every document by the nested path exactly when its field has no dot |
| PgQuery.WherePlaceholders | apps/core/src/pg_storage.rs:622-632 | scope and filters use `$1, $2, …` once each, left to right |
| PgQuery.BuildQuery | apps/core/src/pg_storage.rs:608-679 | refused exactly for a sort field with a character that is no ASCII letter, digit or underscore; otherwise count and page statements select exactly the stored documents that satisfy the filters, the last two parameters are the limit, at most 1000, and the offset, and the page is ordered by the field and direction asked for |
| Search.SearchEngine.IndexRecord | apps/core/src/search.rs:145-177 | queues the document, counts it, commits and resets at the threshold; stops at the first writer call that fails |
| Search.SearchEngine.Flush | apps/core/src/search.rs:182-192 | commits and resets if the counter is not zero and the commit succeeds |
| Search.SearchEngine.IndexRecordsBulk | apps/core/src/search.rs:199-224 | queues the documents up to the one that fails, and commits if none did, without touching the counter |
| Search.SearchEngine.Remove | apps/core/src/search.rs:328-337 | queues the deletion and commits without touching the counter; a failing commit leaves it queued |
| Search.SearchEngine.constructor | apps/core/src/search.rs:96-97 | threshold at least one, invariant established |
| Search.RunIsReplay | apps/core/src/search.rs:145-224 | under any mix of operations queued documents ≤ counter < threshold, and the contents are the unbatched replay |
| Search.FlushShowsReplay | apps/core/src/search.rs:182-192 | a flush after any run shows exactly the replay, skipped commit included; before it the visible documents are a prefix behind by less than the threshold |
| Search.CounterCycles | apps/core/src/search.rs:145-224 | over any run from a fresh engine the counter is the number of records indexed one by one since the last flush, over and above full batches; bulk and removal leave it alone |
| Search.VisibleIff | apps/core/src/search.rs:145-337 | after any operation of any run all contents are visible exactly unless it indexed a record that does not fill its batch |
| Search.AttemptsReplay | apps/core/src/search.rs:145-224 | whichever writer calls fail, the contents, shown or not, are the replay of what was queued |
| Search.FlushEmptiesIff | apps/core/src/search.rs:182-192 | after any attempts a flush that commits shows the whole replay exactly when the counter is not zero or nothing is queued, and else changes nothing |
| Search.StrandedIff | apps/core/src/search.rs:199-337 | from an empty queue, with no bulk or removal failing half way, a flush shows everything; one that does so right after a flush stays unseen by the next, and only such a one |
| Search.FlushedIsVisible | apps/core/src/search.rs:182-192 | in every interleaving, a flush that has returned shows everything performed before it was called, although it reads the counter outside the lock |
| SearchProcessor.RunProcessor | apps/core/src/search_processor.rs:38-119 | live loop, drain and flush with any failures: a flush that commits shows, id by id, the latest record that the writer took, exactly when no removal is stranded |
| SearchProcessor.LiveLoop | apps/core/src/search_processor.rs:41-90 | handles every received event, outlives lag, ends when the bus closes |
| SearchProcessor.DrainLoop | apps/core/src/search_processor.rs:93-111 | handles events up to the first receive error |
| SearchProcessor.LiveAppended | apps/core/src/search_processor.rs:41-90 | one more receipt adds its event exactly when it is one and the bus has not closed before |
| SearchProcessor.DrainAppended | apps/core/src/search_processor.rs:93-111 | one more receipt adds its event exactly when every receipt so far was an event |
| SearchProcessor.ContentsAreLatest | apps/core/src/search_processor.rs:60-77 | in every run the written contents are the id-to-latest-record map, no stale or duplicate document for a touched id |
| SearchProcessor.QueueIsLastChange | apps/core/src/search_processor.rs:61-74 | at most the last changed document is uncommitted, exactly when the last record event is a change and the counter's cycle is not at zero |
| SearchProcessor.VisibleIsLatest | apps/core/src/search_processor.rs:41-90 | the visible index is the map, missing the last changed id exactly while its batch is unfilled |
| SearchProcessor.ShutdownShowsAll | apps/core/src/search_processor.rs:92-116 | after drain and flush the visible index is exactly the map |
| SearchProcessor.ContentsAreTaken | apps/core/src/search_processor.rs:60-77 | whichever writer calls fail, the contents per id are the last document added, nothing after a removal or a failed addition, else what was there |
| SearchProcessor.StrandedIffQueued | apps/core/src/search_processor.rs:60-77 | with the counter at zero something is queued exactly when the last record event queued a removal that did not commit and no addition |
| SearchProcessor.FlushedIsTaken | apps/core/src/search_processor.rs:92-116 | the shutdown flush shows the map to the latest record taken, or does nothing when a removal is stranded |
| SearchProcessor.FineIsExpected | apps/core/src/search_processor.rs:38-119 | without failures that map is what the events ask for, and nothing is stranded |
| SearchProcessor.DeletionIsStranded | apps/core/src/search_processor.rs:70-74 | a deletion whose commit fails as the last event: the document is still found after shutdown |
| SearchProcessor.DrainIsCompleteIff | apps/core/src/search_processor.rs:92-111 | the drain handles every event still to be received exactly when none comes after a lag notice |
| SearchProcessor.DrainLosesEvent | apps/core/src/search_processor.rs:108-109 | an event behind a lag notice is lost |
| Storage.StorageAdapter.Get | apps/core/src/pg_storage.rs:444-464 | the row only if plugin and collection match |
| Storage.StorageAdapter.CreateWithId | apps/core/src/pg_storage.rs:476-522 | inserts at version 1 under a free id whoever owns the others; an error after the insert leaves the row |
| Storage.StorageAdapter.Update | apps/core/src/pg_storage.rs:524-606 | compare-and-set on the version with two distinct refusals; an error after the write leaves it written |
| Storage.StorageAdapter.Delete | apps/core/src/pg_storage.rs:694-729 | deletes the row of that plugin and collection; an error after the deletion leaves it deleted |
| Sync.ApplyChange | apps/core/src/sync_primitives.rs:95-150 | the three cases with their storage calls, as one function of table, change and what becomes of the calls |
| Sync.SmoothApply | apps/core/src/sync_primitives.rs:95-150 | with calls that all go through, that function is the change itself |
| Sync.CreateApplied | apps/core/src/sync_primitives.rs:100-107 | a creation inserts at version 1 exactly when it has data, the id is free and the call writes; it never overwrites |
| Sync.UpdateApplied | apps/core/src/sync_primitives.rs:108-132 | an update overwrites exactly a record of a lower version, inserts a missing one, and leaves the same or a higher version alone without error |
| Sync.DeleteApplied | apps/core/src/sync_primitives.rs:133-147 | a delete removes exactly a record of a lower version; a stale one changes nothing and is no error |
| Sync.NextChangeMirrors | apps/core/src/sync_primitives.rs:100-147 | the next change of a mirrored record applies without error and keeps presence, data and the version bound |
| Sync.HistoryMirrors | apps/core/src/sync_primitives.rs:95-150 | an in-order history gives the remote's presence and data; the local version counts the writes since creation |
| Sync.VersionEqualIff | apps/core/src/sync_primitives.rs:112-120 | the local version never exceeds the remote's and equals it exactly when remote versions are gap-free from 1 |
| Sync.RedeliveryMirrors | apps/core/src/sync_primitives.rs:95-150 | changes delivered again from any earlier point, then on to any later point, end mirroring that later point |
| Federation.SyncWithPeer | apps/core/src/federation.rs:330-463 | every selected collection is pulled whatever becomes of the others: reported are exactly those that the peer answers for, their cursors move to the answers', the totals are sums over the answers and the table has every answered batch; with the success and both early exits |
| Federation.PullCollections | apps/core/src/federation.rs:375-463 | the loop over the collections computes the pull of each in turn |
| Federation.EachIsPulled | apps/core/src/federation.rs:375-463 | pulling distinct collections in turn reports, moves, sums and applies as above, stated from the answers to the cursors at the start |
| Federation.SelectedAppends | apps/core/src/federation.rs:336-344 | of each configured collection every place is selected exactly when there is no filter or the filter names it |
| Federation.NamespaceIsOwn | apps/core/src/federation.rs:474 | each peer has its own namespace, with the prefix that tells it from plugins |
| Federation.ApplyBatch | apps/core/src/federation.rs:430-442 | applies the batch in order, leaves the table alone where storage does not get to write, and counts every error, also one that follows the write |
| Federation.SmoothErrors | apps/core/src/federation.rs:430-442 | without mishaps nothing is spared and the errors are the conflicts |
| Federation.ErrorsCounted | apps/core/src/federation.rs:430-442 | the errors of a batch are exactly the positions at which the change reports one on what the earlier ones left |
| Federation.SetCursor | apps/core/src/sync_primitives.rs:76-82 | changes exactly the cursor of that source and collection |
| Federation.SyncIsIsolated | apps/core/src/federation.rs:380-476 | whatever the peer answers and whichever storage calls fail, no row outside its namespace and no cursor of another peer or failed pull changes |
| Federation.BatchProjects | apps/core/src/federation.rs:430-442 | within a mixed batch a record sees exactly its own changes |
| Federation.RoundsMirror | apps/core/src/federation.rs:380-451 | after any number of rounds, with lost cursors and replays, every record with a free id is present exactly when the remote's is, with its data |
| Federation.ConvergesIff | apps/core/src/pg_storage.rs:213-223 | a record not yet copied converges exactly when its id is free locally or it is gone remotely |
| Federation.SecondPeerIsBlocked | apps/core/src/federation.rs:469-476 | of two peers that publish the same id the second is never copied |
| Federation.FreshBatchHasNoConflicts | apps/core/src/federation.rs:430-442 | the changes after the point already reached cause no conflict and bring every record to the new point |
| FederationRuns.ServedIff | apps/core/src/routes/federation.rs:188-204 | a record is served, once and as it stands, exactly when it is in the page and stamped after the cursor |
| FederationRuns.AnswerIff | apps/core/src/routes/federation.rs:172-212 | refused exactly for a cursor that is no timestamp; else a record is in the answer exactly when it is in the page and, with a cursor, stamped after it, and the next cursor is the present |
| FederationRuns.WholePage | apps/core/src/routes/federation.rs:157-167 | a collection of at most 1000 rows is listed whole, although the listing has no order |
| FederationRuns.PageLeavesOut | apps/core/src/routes/federation.rs:157-167 | of more than 1000 rows every page leaves one out |
| FederationMirror.PullOneIsPulled | apps/core/src/federation.rs:380-451 | one turn of the pull loop against the endpoint, with some records not written, is listing, cursor and applying, with the cursor passed as text |
| FederationRuns.StartIsOk | apps/core/src/federation.rs:152-158 | two instances with no pull under way and no copy of the record, whatever else they hold, meet the conditions of the statements below |
| FederationRuns.RunKeeps | apps/core/src/sync_primitives.rs:108-132 | in every run of both instances, deletions and failures included, the copy is one of the record's writes, at a version no higher, and never goes back |
| FederationLosses.PullCopiesIff | apps/core/src/routes/federation.rs:145-212 | whatever lands or is erased meanwhile, a pull leaves the copy as new as the row listed exactly when it was already, or the row was in the page, stamped after the cursor, of a version the table takes, and storage got to write it |
| FederationLosses.PullReplacesIff | apps/core/src/sync_primitives.rs:108-132 | in any state a pull changes the local row exactly under those conditions, and then to the row listed |
| FederationLosses.PullHidesIff | apps/core/src/routes/federation.rs:157-212 | after an undisturbed pull a live record is up to date or hidden, and hidden exactly when it was not up to date and the pull did not carry it |
| FederationLosses.HiddenStays | apps/core/src/routes/federation.rs:191-195 | no number of pulls changes the copy of a hidden record until it is written again, erased, or the cursors are lost |
| FederationLosses.LandsHiddenIff | apps/core/src/routes/federation.rs:157-206 | a write is hidden once the pull under way is over exactly when it landed between listing and cursor or with a stamp at or before a cursor given out |
| FederationLosses.WriteIsLostIff | apps/core/src/federation.rs:430-451 | the next pull copies a write or loses it, and loses it exactly when it was not in time, not in the page, of a version the table does not take, or storage did not get to write it |
| FederationMirror.TimelyPullMirrorsIff | apps/core/src/federation.rs:380-451 | after any timely run, deletions, lost answers and lost cursors included, exactly when one more timely pull makes both instances agree on the record |
| FederationMirror.TimelyPullMirrors | apps/core/src/federation.rs:380-451 | for a record that is not deleted and whose id is free, that pull always makes presence and data agree |
| FederationMirror.NothingIsRemoved | apps/core/src/routes/federation.rs:196-203 | no run of both instances ever removes a row locally |
| FederationMirror.RecreatedIsIgnored | apps/core/src/sync_primitives.rs:112-124 | through any run after a deletion at the peer the old copy stays while the writes since are no more than the local version |
| FederationMirror.RecreatedIsCopiedIff | apps/core/src/sync_primitives.rs:112-124 | the next pull replaces that copy exactly when it lists the record, the stamp is after the cursor, storage gets to write it, and the writes since the deletion outnumber the local version |
| FederationMirror.NoteIsLost | apps/core/src/routes/federation.rs:157-206 | a concrete run in which a pull moves the cursor past a note it did not list |
| Household.HouseholdStore.CreateHousehold | apps/core/src/household.rs:89-120 | new household with its creator as Admin, and the user map entry |
| Household.HouseholdStore.CreateInvite | apps/core/src/household.rs:167-196 | created exactly for an existing household, expiring after 604 800 seconds |
| Household.HouseholdStore.AcceptInvite | apps/core/src/household.rs:199-243 | not found exactly without the invite, already accepted exactly if marked, expired exactly if its time is before now; else mark, push and map in that order |
| Household.HouseholdStore.UpdateMemberRole | apps/core/src/household.rs:147-164 | changes the first listing of the user in their current household, if there is one |
| Household.HouseholdStore.AddSharedCollection | apps/core/src/household.rs:246-261 | adds the collection once |
| Household.HouseholdStore.CanAccessRecord | apps/core/src/household.rs:284-315 | the decision from the user's current household, role and shared list |
| HouseholdRuns.EveryRunIsConsistent | apps/core/src/household.rs:89-261 | in every interleaving each user maps to a household that lists them, shared lists are duplicate-free, and per household members + accepts in flight = creator + accepted invites |
| HouseholdRuns.OneMemberPerInvite | apps/core/src/household.rs:199-243 | with no accept in flight, exactly one member per accepted invite besides the creator |
| HouseholdRuns.AccessExactly | apps/core/src/household.rs:336-380 | in every reachable state, access to another's record exactly when it is in the requester's household, shared or the requester Admin, and no Guest write |
| HouseholdRuns.OwnAndOwnerless | apps/core/src/household.rs:347-355 | one's own records and records without an owner are accessible in every state |
| HouseholdRuns.SharingGrantsExactly | apps/core/src/household.rs:246-261 | sharing revokes nothing and grants exactly that collection to that household's members, no Guest writes |
| HouseholdRuns.SharedIff | apps/core/src/household.rs:246-261 | in every run a collection is shared in a household exactly when it has been shared there since its founding |
| HouseholdRuns.AcceptGoesBackToInvite | apps/core/src/household.rs:167-222 | in every interleaving an accept that succeeds goes back to an invitation at most seven days old, to a household that existed, and takes its household and role |
| HouseholdAccepts.AcceptStartsIff | apps/core/src/household.rs:167-222 | in every interleaving an accept succeeds exactly when its invite was stored for an invitation checked at most 604 800 seconds earlier and no accept of it has succeeded before |
| HouseholdAccepts.InviteeJoins | apps/core/src/household.rs:167-222 | an invitation accepted a minute later makes the invitee a member to be, with the invitation's role |
| HouseholdRuns.AcceptedAtMostOnce | apps/core/src/household.rs:205-219 | of all concurrent accepts of an invite at most one ever succeeds |
| HouseholdRuns.UpdateTakesEffectIff | apps/core/src/household.rs:147-164 | in every interleaving a role update gives the user the role exactly when they are still in the household read or have it anyway; no other user's role changes |
| HouseholdRuns.UpdateIsLost | apps/core/src/household.rs:147-164 | in any consistent state, a user who founds a household between the two locks of a role update is Admin afterwards |
| HouseholdRuns.UpdateIsReached | apps/core/src/household.rs:147-164 | such an update between its two locks is reached from the empty store |
| HouseholdRuns.AcceptGivesRoleIff | apps/core/src/household.rs:199-240 | in every interleaving a push is for an accept that succeeded, with its invite's household and role, and gives the role exactly when the household then did not list the user, or listed them first with that role |
| HouseholdRuns.RoleAfterAccept | apps/core/src/household.rs:199-243 | when the accept has run its last section the user's role is the last one written for them there since the push, or else what the push left |
| HouseholdRuns.RoleAfterAcceptIff | apps/core/src/household.rs:199-243 | without such a write the user ends with the invite's role exactly when the household did not list them at the push, or listed them first with that role |
| RateLimit.RateLimitState.CheckAndIncrement | apps/core/src/wasm_runtime.rs:80-94 | rolls the window, then admits and counts or refuses |
| RateLimit.AtMostOneMore | apps/core/src/wasm_runtime.rs:80-94 | for every sequence of calls, any interval of k seconds holds at most k + 1 times the limit of admitted calls |
| RateLimit.AtMostTwiceLimit | apps/core/src/wasm_runtime.rs:80-94 | any one-second interval holds at most twice the limit of admitted calls |
| RateLimit.BoundIsAttained | apps/core/src/wasm_runtime.rs:80-94 | bursts reach that bound for every k, so it cannot be improved |
| RateLimit.RefusedIff | apps/core/src/wasm_runtime.rs:86-91 | a call is refused exactly when the limit has been admitted since the current window began |
| DavText.UnfoldLines | packages/dav-utils/src/text.rs:19-38 | the loop computes the unfolding of the normalised lines |
| DavText.DecodeEscapedValue | packages/dav-utils/src/text.rs:54-90 | the loop with lookahead computes the decoding, unknown escapes kept |
| DavText.EscapeDecoded | packages/dav-utils/src/text.rs:54-90 | an escaped n is a line feed, an escaped comma, semicolon or backslash itself, before anything else the backslash stays |
| DavText.PlainDecoded | packages/dav-utils/src/text.rs:54-90 | other characters and a final backslash stay |
| DavText.PropertyIff | packages/dav-utils/src/vcard.rs:29 | a line is a property exactly when it has a colon |
| DavText.CarriageReturnDropped | packages/dav-utils/src/vcard.rs:28 | one carriage return at the end is dropped |
| DavText.CarriageReturnKept | packages/dav-utils/src/vcard.rs:28 | one before it stays in the value |
| VCardRoundTrip.DecodeEscape | packages/dav-utils/src/vcard.rs:14-19 | decoding undoes escaping, for every value |
| VCardRoundTrip.UnfoldReturnsLines | packages/dav-utils/src/text.rs:19-38 | lines folded anywhere, with any mix of the three breaks and both whitespaces, are returned exactly |
| VCardRoundTrip.ParseReturnsProperty | packages/dav-utils/src/vcard.rs:26-45 | a written line parses to its name, parameters and escaped value |
| VCardRoundTrip.PipelineRoundTrip | packages/dav-utils/src/vcard.rs:14-45 | write, fold, unfold, split, parse and decode return all properties |
| VCardRoundTrip.RoundTripIff | packages/dav-utils/src/text.rs:21 | one property comes back exactly when its value has no carriage return |
| Conflict.ResolveFieldMerge | apps/core/src/conflict.rs:145-214 | for any key order: last-write-wins on non-objects, manual exactly on a clash, else the merge, as `Conflict.MergeOverBase`, `Conflict.MergeWithoutBase` and `Conflict.LaterWriteStays` spell out |
| Conflict.FieldMergeNeedsManual | apps/core/src/conflict.rs:218-247 | true exactly when the merge ends in manual resolution |
| Conflict.MergeOverBase | apps/core/src/conflict.rs:145-214 | over a base object: manual exactly when some field is changed on both sides and differently; else each field is the one a side changed, and the base's where neither did |
| Conflict.MergeWithoutBase | apps/core/src/conflict.rs:145-214 | without a base object: manual exactly when both have a field with different values, else the two together |
| Conflict.LaterWriteStays | apps/core/src/conflict.rs:126-133 | the later write stays, on a tie the remote one, and so for data that is no object |
| Conflict.MergeKeepsChanges | apps/core/src/conflict.rs:164-204 | every one-sided change or deletion and every common change is kept, the rest stays at the base |
| Conflict.MergeIsSymmetric | apps/core/src/conflict.rs:145-214 | the result does not depend on which side is local |
| Conflict.RemergeRemote | apps/core/src/conflict.rs:145-214 | merging the result again with the remote side changes nothing |
| Conflict.RemergeLocal | apps/core/src/conflict.rs:145-214 | merging the result again with the local side changes nothing |
| Conflict.LastWriteWinsAgreesIff | apps/core/src/conflict.rs:126-133 | two replicas that take the last write agree exactly when the timestamps differ or the data are equal, and swap on a tie |
| Conflict.ReplicasAgreeIff | apps/core/src/conflict.rs:145-214 | two replicas that merge agree exactly when both data are objects, or the timestamps differ, or the data are equal |
| Conflict.CollectionAgreesIff | apps/core/src/conflict.rs:73-80 | with the strategy of the collection they agree exactly when timestamps differ, data are equal, the collection is notes, or it is events or contacts and both data are objects |
| Migration.Migrate | apps/core/src/storage_migration.rs:48-201 | commits the inserted table exactly when all counts agree, else the target is untouched |
| Migration.MigrateCollection | apps/core/src/storage_migration.rs:91-147 | the batch loop terminates and inserts exactly the visited rows |
| Migration.VerifyCounts | apps/core/src/storage_migration.rs:160-181 | true exactly when every collection's counts agree |
| Migration.VisitsOnceIff | apps/core/src/storage_migration.rs:91-147 | each row exactly once and in order, if and only if there are at most 4 294 967 500 rows |
| Migration.ReportsEveryRow | apps/core/src/storage_migration.rs:91-201 | within that size the number reported is the number of source rows |
| Migration.CommitIffComplete | apps/core/src/storage_migration.rs:152-186 | over any target and listings of any size, a commit is a complete copy exactly when every row already in the migrated collections was a copy |
| Migration.CleanCommitIff | apps/core/src/storage_migration.rs:152-186 | over a target of copies, it commits exactly when the result is one copy of each source row |
| Migration.MigrationCommits | apps/core/src/storage_migration.rs:91-180 | over any target and listings of any size it commits exactly when in every collection the target's extra rows are as many as the source rows that do not get there |
| Migration.CopiesCommit | apps/core/src/storage_migration.rs:91-180 | over a target of copies and within the largest size it always commits, to one copy of each row |
| Migration.LastRowIsUnvisited | apps/core/src/storage_migration.rs:91-101 | beyond the largest size the last row of a listing is on no page |
| Migration.EmptyTargetCommitsIff | apps/core/src/storage_migration.rs:91-180 | into an empty target it commits exactly when no collection is beyond the largest size |
| Migration.StaleRowIsCommitted | apps/core/src/storage_migration.rs:113-126 | a target with an older state of the row: the row is skipped and the old state committed |
| Migration.RerunIsIdempotent | apps/core/src/storage_migration.rs:114-128 | a rerun over a complete copy changes nothing and commits |
| Migration.RowSurvivesIff | apps/core/src/storage_migration.rs:114-127 | a copied row keeps all but owner and household, and is unchanged exactly when it has neither |
| Quarantine.ValidatedStorage.QuarantineIfInvalid | apps/core/src/schema_registry.rs:292-335 | invalid data becomes an entry, whose write may still be reported as a failure |
| Quarantine.ValidatedStorage.ValidatedCreate | apps/core/src/schema_registry.rs:342-354 | stored, quarantined or failed, where a failed call may have written |
| Quarantine.ValidatedStorage.ValidatedUpdate | apps/core/src/schema_registry.rs:358-372 | updated, quarantined or failed, where a failed call may have written |
| Quarantine.ValidatedStorage.ReprocessQuarantined | apps/core/src/schema_registry.rs:375-428 | read, check, create, then delete; each call may fail, and a write may fail after it took effect |
| Quarantine.RunKeepsValid | apps/core/src/schema_registry.rs:292-428 | in every run, whatever calls fail, every record outside quarantine satisfies its collection's schema |
| Quarantine.AcceptsIff | apps/core/src/schema_registry.rs:342-372 | a create or update reports a place exactly when it wrote and the call succeeded |
| Quarantine.CreateLandsOnce | apps/core/src/schema_registry.rs:342-354 | table and report of a create, from table, registry and call: one new row in the collection if valid, an entry in quarantine if not, nothing if the call does not write; conserves everything else |
| Quarantine.ReprocessConserves | apps/core/src/schema_registry.rs:403-418 | reprocessing moves the record, changes nothing, or leaves it in both places, exactly when the create failed after writing or the delete did not write; never in none |
| Quarantine.ReprocessIff | apps/core/src/schema_registry.rs:375-428 | from table, registry and calls: exactly when the record is back in its collection, exactly when the entry is gone, and which of the four reports is given |
| Quarantine.RunConserves | apps/core/src/schema_registry.rs:292-428 | in every run, whatever becomes of the calls, the rows that stand for a record are those at the start, plus one per create or update of it that wrote and per reprocess that left its entry, less one per update that replaced such a row |
| Quarantine.NothingLost | apps/core/src/schema_registry.rs:342-428 | a create or update that wrote or reports a place stays held through any run unless an update replaced a row that held it |
| Quarantine.UpdateConserves | apps/core/src/schema_registry.rs:358-372 | an invalid update that writes adds one entry, one that replaces gives up exactly what its row stood for, whatever they report |
| Quarantine.EntryIsLostIff | apps/core/src/schema_registry.rs:358-372 | an update of the only entry that holds a record loses it exactly when its data is valid, plugin, collection and version are the entry's, it stands for something else, and the call writes |
| Quarantine.NoteIsOverwritten | apps/core/src/schema_registry.rs:358-372 | a quarantined note overwritten with another document is gone, also when the call reports a failure |
| Quarantine.UpdateKeepsRecord | apps/core/src/schema_registry.rs:358-372 | table and report of an update, from table, registry and call: an invalid one leaves every row and quarantines the new version, a valid one replaces exactly the record of that version |
| Config.MergeJson | apps/core/src/config.rs:942-953 | for any field order the loop computes the recursive merge |
| Config.MergeIsIdempotent | apps/core/src/config.rs:942-953 | merging a patch twice is merging it once |
| Config.SilentPathIsBase | apps/core/src/config.rs:942-953 | where the patch is silent the base decides |
| Config.SpokenPathIsPatch | apps/core/src/config.rs:942-953 | where the patch speaks and names no object the patch decides |
| Config.ObjectPathMerges | apps/core/src/config.rs:942-953 | where the patch names an object, the values at the path are merged |
| Config.GetAfterSet | apps/core/src/config.rs:1489-1526 | after an override its path reads the text, except over an integer, float or boolean as which the text parses |
| Config.SetFrame | apps/core/src/config.rs:1489-1526 | an override leaves every path apart from its own as it was |
| Config.SetAboveAndBelow | apps/core/src/config.rs:1514-1525 | above its path an override makes tables, below it nothing is left |
| Config.SetsCommute | apps/core/src/config.rs:1489-1526 | overrides on paths where neither is a prefix of the other commute |
| Config.ApplyEnvOverrides | apps/core/src/config.rs:1461-1484 | the loop applies the relevant variables in key order, skipping empty segments; `Config.TakenInOrder` says which they are and `Config.LastReachingDecides` what they leave |
| Config.TakenInOrder | apps/core/src/config.rs:1462-1468 | from any environment: exactly the variables that begin with `LIFE_ENGINE_`, without `LIFE_ENGINE_CONFIG`, in the order of their keys |
| Config.LessIff | apps/core/src/config.rs:1467-1468 | keys are ordered by the first character in which they differ, and before those that they begin |
| Config.SettingPath | apps/core/src/config.rs:1471-1472 | the two words after the prefix, in lower case, are the path |
| Config.SettingIsStored | apps/core/src/config.rs:1461-1512 | from a raw environment with a setting, the variable that names the file and a foreign one: the setting is stored at its path and every path apart from it is as configured |
| Config.ShorterComesFirst | apps/core/src/config.rs:1467-1468 | of two keys that begin alike the shorter is applied first, however they are listed |
| Config.ListingOrderIrrelevant | apps/core/src/config.rs:1461-1468 | the outcome does not depend on the order in which the environment is listed |
| Config.OverridesFrame | apps/core/src/config.rs:1470-1484 | a path that no variable reaches keeps its configured value |
| Config.LastOverrideHolds | apps/core/src/config.rs:1470-1484 | when no later variable names the same path, a variable's value holds exactly when none reaches the path |
| Config.LastReachingDecides | apps/core/src/config.rs:1470-1484 | at every path: the configured value if no variable reaches it, else what the last to reach it leaves: its text or what that parses to in the kind replaced, a table above, nothing below |
| Config.OverrideHoldsIff | apps/core/src/config.rs:1470-1484 | a variable's value is in place in the end exactly when it is the last to reach its path, or that one has the same path and leaves an equal value |
| Config.TableReplacesValue | apps/core/src/config.rs:1470-1484 | `A` is lost to `A_B` |

## Left out

- Search.RunIsReplay: the writer's calls succeed; `Search.AttemptsReplay` covers those that fail, taking a failing commit to leave the queue as it is and a failing reload for a failing commit.
- PgMeaning.FiltersDenote: every operand is evaluated; `PgOrder.WhereInAnyOrder` covers a server that leaves some out.
- PgQuery.BuildPgFilterClauses: the placeholder counter is unbounded, not 32 bits wide; the server takes at most 65 535 parameters.
- Sync.HistoryMirrors: histories are delivered in order, versions increase, and a creation is only sent for an absent record; out-of-order delivery is not covered.
- Federation.RoundsMirror: storage writes every change; what a record not written costs is stated for the repository's own endpoint in `FederationLosses`.
- Federation.SyncWithPeer: the statement from the answers is for distinct collections; of one configured twice the second pull starts from the cursor of the first, as the loop's specification says.
- FederationLosses.WriteIsLostIff: one peer and collection, one pull at a time, a clock at the peer that does not go back, and no local writer other than the pull; `unwritten` is the set of records that storage did not write, whether or not the call reported an error.
- Quarantine.RunKeepsValid: a schema registered for the quarantine collection itself is not enforced on quarantine entries by the code, and the statement does not cover them.
- Storage.StorageAdapter.Update: versions are unbounded integers, timestamps are not modelled, and of audit entries only that writing one can fail.
- SQL beyond the WHERE clause: column lists, ORDER BY evaluation, full-text ranking, connection pools and the driver's parameter types.
- Scoring, query parsing and text extraction of the search index; a document is its id and body.
- HTTP, TLS, signals, process start-up, service installation, cryptography, signing and credentials.
- Peer bookkeeping and sync history in the federation store, the conflict store, and dispatch and capability checks of the plugin host: settled branch by branch.
- The per-client HTTP rate limiter, connector backoff, ETags, URLs, iCalendar dates and DAV XML: thin wrappers over other libraries.
- Configuration validation, defaults and redaction; the legacy environment overrides of the flat configuration.
- The admin user interface, build configuration and registry scripts.
