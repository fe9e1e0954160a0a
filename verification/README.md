# SlashTodo event-sourced core, modelled in Dafny

SlashTodo keeps Slack todo lists as event-sourced aggregates. This model covers the following parts:

- the generic `Repository<T>`, generic over the aggregate type and modelled over the Azure table store only (see "## Left out"). `GetById` loads an aggregate by replaying the events the event store holds for its id, and returns null when there are none. `Save` rejects a null aggregate and does nothing when the buffer is empty. Otherwise it hands the uncommitted events to the store, together with the id and the first event's `OriginalVersion`. It then publishes the events one by one through the dispatcher, and finally clears the buffer.
- the Azure Table Storage event store `AzureTableEventStore`:
  - The constructor validates its settings.
  - `GetById` queries the id's partition and orders the events by `OriginalVersion`.
  - `Save` stable-sorts the events and inserts them in batches of at most 100. Each event is a `DomainEventEntity` row with PartitionKey = id and RowKey = decimal version.
  - `Delete` removes the partition's rows in batches of at most 100.
- the six Todo events: a common header plus `TodoAdded`, `TodoRemoved`, `TodoTicked`, `TodoUnticked`, `TodoClaimed` and `TodoFreed`.
- the Todo aggregate's `Claim`, `Free` and `Remove` rules, as its unit tests state them. `Tick` and `Untick` are modelled too, but only the claim test on a ticked todo constrains `Tick`, and no test calls `Untick`, so their rules are the model's own choice (see "## Left out").
- the repository contract that `RepositoryTests` pins down.

Modules, one per file:

- `Wrappers`: `Option` and `Result`.
- `TodoEvents`: the event header and the six event kinds.
- `Decimal`: `int.ToString()` and `int.Parse` on the RowKey.
- `Chunking`: `Skip(n).Take(100)` batching.
- `EventOrder`: the stable `OrderBy(x => x.OriginalVersion)`.
- `TableStorage`: one Azure table, with the rules for batched insert and delete.
- `AzureTableEventStore`: the event store itself.
- `Aggregates`: the aggregate base class, covering replay, raising events and the uncommitted buffer.
- `Todo` and `TodoRules`: the Todo aggregate and its rules.
- `Repository`: the repository, generic over the aggregate type, with `AzureTableEventStore` as its event store.
- `RepositoryContract`: the behaviour `RepositoryTests` checks, using its dummy aggregate.
- `TodoRepository`: a Todo saved and loaded through the repository.

How the model represents the system:

- **The table** is a sequence of rows kept under a primary-key invariant (`WellKeyed`): no two rows share (PartitionKey, RowKey).
- **Batch rules.** A batch is accepted only when all of the following hold:
  - it holds 1 to 100 rows;
  - all its rows share one partition;
  - no key repeats within it;
  - for an insert, none of its keys is already taken;
  - for a delete, every one of its keys is present.

  A rejected batch writes nothing. Batches commit one after another.
- **Transport failures** are a parameter: the index of the batch, or of the publish call, that fails. A failed batch request is taken never to have reached the service; a reply lost after the service committed is not modelled (see "## Left out"). The dispatcher becomes a log of published events in a `World` value, and the store's `Save` calls are logged there too, as the tests' mock store records them; the store itself is the Azure table model.
- **Exceptions** (`ArgumentNullException`, `ArgumentException`, `TodoClaimedBySomeoneElseException`) become `Result`/`Option` error values.
- **The aggregate base class and `Todo.cs` are not part of this model.** Their behaviour comes from what `RepositoryTests` and the Todo tests require of them:
  - replay is a left fold over the events;
  - `Version` counts the applied events;
  - each raised event carries the version before it.
- **Where the code and the design differ, the model follows the code:**
  - `Repository` passes a `string` id where `IEventStore` declares `Guid`. Ids are modelled as strings, and the Guid text round trip is not modelled.
  - `AzureTableEventStore.Save` ignores its `aggregateId` and `expectedVersion` arguments. Optimistic concurrency comes only from the table rejecting a RowKey that is already taken, which `SecondSaveOfSameSlotConflicts` states.

## Model

| member | source | states |
|---|---|---|
| TodoEvents.Make | src/SlashTodo.Core/Domain/TodoEvents.cs:9-43 | an event can be built for a kind and header exactly when a text payload is given for `TodoAdded` and only then; the built event has that kind and header |
| Decimal.FormatInt | src/SlashTodo.Api/Infrastructure/AzureTableEventStore.cs:122 | the RowKey text of a version is a non-empty string starting with `-` exactly for negative versions |
| Decimal.ParseInt | src/SlashTodo.Api/Infrastructure/AzureTableEventStore.cs:113 | `int.Parse` succeeds exactly when the text is an optional `+` or `-` followed by at least one ASCII digit and the number it denotes fits the 32-bit range; the result is that number |
| Decimal.ParseReadsDigits | src/SlashTodo.Api/Infrastructure/AzureTableEventStore.cs:113 | example of the `ParseInt` contract: `"12"`, `"+7"` and `"-30"` read as 12, 7 and -30 |
| Decimal.ParseRejectsNonNumbers | src/SlashTodo.Api/Infrastructure/AzureTableEventStore.cs:113 | example of the `ParseInt` contract: empty text, a bare sign, `"abc"` and `"1a"` are rejected |
| Decimal.ParseFormat | src/SlashTodo.Api/Infrastructure/AzureTableEventStore.cs:113-122 | parsing the RowKey written for any 32-bit version gives that version back |
| Decimal.FormatIntInjective | src/SlashTodo.Api/Infrastructure/AzureTableEventStore.cs:122 | two versions get the same RowKey text if and only if they are equal |
| AzureTableEventStore.Create | src/SlashTodo.Api/Infrastructure/AzureTableEventStore.cs:23-39 | the store is created exactly when settings are present and neither the connection string nor the table name is null or white space; otherwise the first failing check, in source order, is the error |
| AzureTableEventStore.ToEntity | src/SlashTodo.Api/Infrastructure/AzureTableEventStore.cs:119-125 | the entity of an event holds that event and lies in the partition named by the event's id |
| AzureTableEventStore.EntityVersion | src/SlashTodo.Api/Infrastructure/AzureTableEventStore.cs:113 | a row key read as a version gives a 32-bit number; it fails only on a key that is not the decimal text of any 32-bit version |
| AzureTableEventStore.EntityRoundTrip | src/SlashTodo.Api/Infrastructure/AzureTableEventStore.cs:112-130 | an entity built from an event reads back that event, its id and its version |
| AzureTableEventStore.EntityKeyIsSlot | src/SlashTodo.Api/Infrastructure/AzureTableEventStore.cs:119-125 | two events map to the same table key if and only if they have the same id and the same version |
| AzureTableEventStore.GetById | src/SlashTodo.Api/Infrastructure/AzureTableEventStore.cs:41-48 | the result is ordered by version and is a permutation of the events stored in the id's partition |
| AzureTableEventStore.CommitInserts | src/SlashTodo.Api/Infrastructure/AzureTableEventStore.cs:62-71 | running the insert batches in order either commits all of them, appending their rows, or stops at a failing batch with exactly the earlier batches' rows appended; the table stays well keyed |
| AzureTableEventStore.Save | src/SlashTodo.Api/Infrastructure/AzureTableEventStore.cs:50-72 | on success the table gains the entities of the version-sorted events, in order; when batch b fails, exactly the first b*100 sorted events were written, and fewer than all of them |
| AzureTableEventStore.CommitDeletes | src/SlashTodo.Api/Infrastructure/AzureTableEventStore.cs:78-88 | running the delete batches in order either removes every row they name, or stops at a failing batch with exactly the earlier batches' rows removed |
| AzureTableEventStore.Delete | src/SlashTodo.Api/Infrastructure/AzureTableEventStore.cs:74-89 | on success the rows left are exactly the rows outside the id's partition; when batch b fails, exactly the rows of the earlier batches, the partition's first b*100 rows in table order, are gone |
| AzureTableEventStore.FailedDeleteKeepsTheRest | src/SlashTodo.Api/Infrastructure/AzureTableEventStore.cs:74-89 | whatever order the partition query returns, a failed delete adds no row, keeps every row of other partitions, and leaves the partition non-empty |
| AzureTableEventStore.SaveCommitsEachEventOnce | src/SlashTodo.Api/Infrastructure/AzureTableEventStore.cs:50-72 | a committed save adds one row per event, every event's entity is in the table, no two events shared a slot, and no slot was taken before |
| AzureTableEventStore.SecondSaveOfSameSlotConflicts | src/SlashTodo.Api/Infrastructure/AzureTableEventStore.cs:52-54 | after a committed save, a save containing an event with the same id and version does not commit; when it fits one batch it writes nothing |
| AzureTableEventStore.OccupiedSlotFailsSave | src/SlashTodo.Api/Infrastructure/AzureTableEventStore.cs:52-54 | a save containing an event whose (id, version) row already exists never commits |
| AzureTableEventStore.FailedSingleBatchWritesNothing | src/SlashTodo.Api/Infrastructure/AzureTableEventStore.cs:56-58 | a failed save of at most 100 events leaves the table exactly as it was, the batch being one transaction |
| AzureTableEventStore.SaveOnFreeSlotsCommits | src/SlashTodo.Api/Infrastructure/AzureTableEventStore.cs:56-71 | without a transport failure, a save of events of one id with distinct, untaken slots commits, however many batches it needs |
| AzureTableEventStore.ReadAfterSave | src/SlashTodo.Api/Infrastructure/AzureTableEventStore.cs:41-72 | after a committed save into an empty partition, `GetById` returns the saved events sorted by version |
| AzureTableEventStore.AppendToStream | src/SlashTodo.Api/Infrastructure/AzureTableEventStore.cs:41-72 | a partition holding versions 0 to n-1 of an id accepts a save of versions n, n+1, ... of that id without a transport fault; it then holds the old entities followed by the new, and `GetById` reads back the extended stream |
| AzureTableEventStore.DeleteEmptiesOnlyItsPartition | src/SlashTodo.Api/Infrastructure/AzureTableEventStore.cs:74-89 | without a transport failure, a delete commits, `GetById` of the id is then empty, and `GetById` of every other id is unchanged |
| Chunking.Chunks | src/SlashTodo.Api/Infrastructure/AzureTableEventStore.cs:61-71 | the batches concatenate to the input, each holds 1 to 100 items, all but the last hold exactly 100, and there are ceil(n/100) of them |
| Chunking.ChunksPrefix | src/SlashTodo.Api/Infrastructure/AzureTableEventStore.cs:61-71 | the first k batches hold exactly the first min(100k, n) items |
| EventOrder.SortByVersion | src/SlashTodo.Api/Infrastructure/AzureTableEventStore.cs:60 | the result is ordered by version and is a permutation of the input |
| EventOrder.SortSortedIsIdentity | src/SlashTodo.Api/Infrastructure/AzureTableEventStore.cs:46 | sorting events already in version order leaves them as they are |
| EventOrder.SortIsStable | src/SlashTodo.Api/Infrastructure/AzureTableEventStore.cs:60 | events with equal versions keep their relative order, as `OrderBy` guarantees |
| Aggregates.LoadFromEvents | src/Tests/SlashTodo.Core.Tests/RepositoryTests.cs:29-48 | loading events folds each one into the state in order and advances the version by the number of events, leaving the buffer alone |
| Aggregates.RaiseAll | src/Tests/SlashTodo.Core.Tests/RepositoryTests.cs:85-107 | raising events appends them to the buffer, applies them to the state and advances the version by their number |
| Aggregates.RebuildMatchesLive | src/Tests/SlashTodo.Core.Tests/RepositoryTests.cs:51-68 | replaying an aggregate's history into a new aggregate gives the same state and version with an empty buffer |
| Aggregates.RaiseAllExtendsHistory | src/Tests/SlashTodo.Core.Tests/RepositoryTests.cs:171-199 | raising events on an aggregate that tracks a history makes it track that history followed by the events |
| Aggregates.ExpectedVersionIsVersionBeforeRaises | src/SlashTodo.Core/Repository.cs:42 | unfolds the consecutive-stamping invariant at the first buffered event: the version the repository passes as the expected version is the aggregate's version minus the buffer length, its version before the buffered events were raised |
| Repository.GetById | src/SlashTodo.Core/Repository.cs:21-31 | absent exactly when the store has no events for the id; otherwise the aggregate tracks the stored events and has an empty buffer |
| Repository.PublishFrom | src/SlashTodo.Core/Repository.cs:43-46 | the events are published in order until the first failing publish; the log grows by exactly the events before it |
| Repository.Save | src/SlashTodo.Core/Repository.cs:33-49 | null is an argument error and an empty buffer a no-op, neither touching anything. Otherwise the store is called once with the id, the first event's version and the buffer, and success requires both a store commit and no publish failure. On success the events are in the table and published and the buffer is cleared. On failure the buffer is kept: a store failure publishes nothing, and a publish failure leaves a published prefix |
| Repository.SaveStoresWhatTheStoreCommits | src/SlashTodo.Core/Repository.cs:42-47 | with no publish failure, the save succeeds exactly when the store commits, and the table is the one the store left |
| Repository.SaveOfNewAggregateCommits | src/SlashTodo.Core/Repository.cs:39-47 | a new aggregate saved into an empty partition succeeds, the store then holds exactly its buffer, every buffered event is published, and the buffer is cleared |
| Repository.SaveThenLoadRoundTrip | src/SlashTodo.Core/Repository.cs:21-49 | a new aggregate saved into an empty partition and loaded back by id is the same aggregate with an empty buffer |
| Repository.SaveAfterLoadCommits | src/SlashTodo.Core/Repository.cs:21-49 | an aggregate loaded from the stored stream of its id (versions 0 to n-1), with events raised since, saves without faults, publishes its buffer and clears it; the partition then holds the stream followed by the buffer, and loading gives the aggregate back with an empty buffer |
| Repository.SecondSaveOfSameVersionFails | src/SlashTodo.Core/Repository.cs:42 | a second save whose first event takes a slot the first save took fails in the store, publishes nothing and keeps its buffer |
| RepositoryContract.LoadAppliesExactlyTheStoredEvents | src/Tests/SlashTodo.Core.Tests/RepositoryTests.cs:29-82 | the loaded aggregate has applied exactly the store's events, in order, with an empty buffer; it is absent when there are none |
| RepositoryContract.SaveCallsStoreWithVersionBeforeFirstRaise | src/Tests/SlashTodo.Core.Tests/RepositoryTests.cs:85-107 | saving the recording aggregate after raising events calls the store once with its id, the first raised event's version and exactly the raised events; that version is the one before the first raise only when the first event carries it, which the lemma requires |
| TodoRepository.SaveHandsStoreVersionBeforeCommands | src/Tests/SlashTodo.Core.Tests/RepositoryTests.cs:85-107 | after any run of todo commands that raised events, saving calls the store once with the todo's id, its version before the first command, and exactly the raised events |
| RepositoryContract.SavePublishesInOrderAndClears | src/Tests/SlashTodo.Core.Tests/RepositoryTests.cs:110-148 | a successful save publishes every raised event in order and leaves no uncommitted events |
| RepositoryContract.SaveWithNothingBufferedTouchesNothing | src/Tests/SlashTodo.Core.Tests/RepositoryTests.cs:151-162 | with an empty buffer neither the store nor the dispatcher is called |
| Todo.Add | src/Tests/SlashTodo.Core.Tests/TodoTests/ClaimTodoTests.cs:16-34 | a new todo has version 1, one `TodoAdded` event at version 0 carrying the given fields, and an open, unclaimed state |
| Todo.ApplyTodo | src/SlashTodo.Core/Domain/TodoEvents.cs:9-43 | `TodoAdded` sets the whole state from the event: id, conversation, short code and text, open, unticked and unclaimed. Every other event keeps those four fields and changes only what it is named after: removed, ticked, unticked, claimed by the event's user, or freed |
| Todo.Claim | src/Tests/SlashTodo.Core.Tests/TodoTests/ClaimTodoTests.cs:16-133 | a claim raises nothing exactly when the todo is removed, ticked or already the actor's; a refusal names the other holder; a raised event is a `TodoClaimed` stamped by the actor with the todo's version |
| Todo.Free | src/Tests/SlashTodo.Core.Tests/TodoTests/FreeTodoTests.cs:16-102 | a free raises nothing exactly when the todo is removed or unclaimed; a refusal names the other holder; a raised event is a stamped `TodoFreed` |
| Todo.Remove | src/Tests/SlashTodo.Core.Tests/TodoTests/RemoveTodoTests.cs:16-120 | a remove raises nothing exactly when the todo is already removed; a refusal names the other holder; a raised event is a stamped `TodoRemoved` |
| Todo.Tick | src/Tests/SlashTodo.Core.Tests/TodoTests/ClaimTodoTests.cs:118-133 | a tick is never refused, raises nothing exactly when the todo is removed or already ticked, and otherwise raises a stamped `TodoTicked` |
| Todo.Untick | src/SlashTodo.Core/Domain/TodoEvents.cs:33-35 | an untick is never refused, raises nothing exactly when the todo is removed or not ticked, and otherwise raises a stamped `TodoUnticked` |
| Todo.RunAll | src/Tests/SlashTodo.Core.Tests/RepositoryTests.cs:88-92 | commands carried out one after another only extend the buffer, by at most one event each, and the version grows with it |
| Todo.Perform | src/Tests/SlashTodo.Core.Tests/TodoTests/ClaimTodoTests.cs:55-72 | a refusal is an error naming the claimer that leaves the todo alone; an accepted event is appended, applied and advances the version by one |
| TodoRules.CanClaimTodo | src/Tests/SlashTodo.Core.Tests/TodoTests/ClaimTodoTests.cs:16-34 | claiming an open, unclaimed todo raises one `TodoClaimed` stamped by the claimer and makes them the claimer |
| TodoRules.ClaimIsIdempotent | src/Tests/SlashTodo.Core.Tests/TodoTests/ClaimTodoTests.cs:37-52 | a second claim by the same user raises nothing |
| TodoRules.ClaimConflictRule | src/Tests/SlashTodo.Core.Tests/TodoTests/ClaimTodoTests.cs:55-72 | a claim is refused if and only if the todo is open, someone else holds it and force is off; the refusal names the holder |
| TodoRules.ForcedClaimTakesOver | src/Tests/SlashTodo.Core.Tests/TodoTests/ClaimTodoTests.cs:75-99 | a forced claim of a todo held by someone else raises `TodoClaimed` and makes the actor the claimer |
| TodoRules.ClaimingRemovedOrTickedDoesNothing | src/Tests/SlashTodo.Core.Tests/TodoTests/ClaimTodoTests.cs:101-133 | claiming a removed or ticked todo, forced or not, leaves it unchanged |
| TodoRules.CanFreeTodo | src/Tests/SlashTodo.Core.Tests/TodoTests/FreeTodoTests.cs:16-35 | the claimer freeing their todo raises one `TodoFreed` and leaves it unclaimed |
| TodoRules.FreeIsIdempotent | src/Tests/SlashTodo.Core.Tests/TodoTests/FreeTodoTests.cs:38-56 | freeing a freed todo raises nothing |
| TodoRules.FreeConflictRule | src/Tests/SlashTodo.Core.Tests/TodoTests/FreeTodoTests.cs:59-76 | a free is refused if and only if the todo is not removed, someone else holds it and force is off; the refusal names the holder |
| TodoRules.ForcedFreeReleases | src/Tests/SlashTodo.Core.Tests/TodoTests/FreeTodoTests.cs:79-102 | a forced free of a todo held by someone else raises `TodoFreed` and leaves it unclaimed |
| TodoRules.CanRemoveTodo | src/Tests/SlashTodo.Core.Tests/TodoTests/RemoveTodoTests.cs:16-34 | removing a todo nobody else holds raises one `TodoRemoved` and marks it removed |
| TodoRules.RemoveIsIdempotent | src/Tests/SlashTodo.Core.Tests/TodoTests/RemoveTodoTests.cs:37-52 | removing a removed todo raises nothing |
| TodoRules.RemoveConflictRule | src/Tests/SlashTodo.Core.Tests/TodoTests/RemoveTodoTests.cs:55-72 | a remove is refused if and only if the todo is not removed, someone else holds it and force is off |
| TodoRules.ForcedRemove | src/Tests/SlashTodo.Core.Tests/TodoTests/RemoveTodoTests.cs:75-98 | a forced remove of a todo held by someone else raises `TodoRemoved` |
| TodoRules.RemovedIsTerminal | src/Tests/SlashTodo.Core.Tests/TodoTests/RemoveTodoTests.cs:37-52 | no operation raises anything on a removed todo |
| TodoRules.ClaimingTickedTodoDoesNothing | src/Tests/SlashTodo.Core.Tests/TodoTests/ClaimTodoTests.cs:118-133 | a todo added and ticked raises one `TodoTicked` and is ticked; once its buffer is cleared, any claim leaves it unchanged with nothing buffered |
| TodoRules.OperationsPropose | src/SlashTodo.Core/Domain/TodoEvents.cs:9-43 | every operation raises at most one non-`TodoAdded` event, stamped with the todo's id and current version |
| TodoRules.AddIsValid | src/Tests/SlashTodo.Core.Tests/TodoTests/ClaimTodoTests.cs:16-34 | a new todo tracks its one `TodoAdded` and its buffer is stamped with version 0 and its id |
| TodoRules.PerformKeepsValid | src/Tests/SlashTodo.Core.Tests/TodoTests/ClaimTodoTests.cs:16-34 | carrying out any decision keeps the todo consistent with its history extended by the raised event, and keeps its id |
| TodoRules.RunAllKeepsStamped | src/SlashTodo.Core/Repository.cs:42 | after any run of commands the buffer is still stamped with consecutive versions and the todo's own id, and the id is unchanged |
| TodoRules.ClaimHandover | src/Tests/SlashTodo.Core.Tests/TodoTests/ClaimTodoTests.cs:55-99 | a todo claimed by one user refuses another user's plain claim, naming the first, and a forced claim hands it over |
| TodoRepository.AddedTodoSurvivesSaveAndReload | src/SlashTodo.Core/Repository.cs:21-49 | a new todo saved into an empty partition is published and loads back with the same state and version and an empty buffer |
| TodoRepository.ReloadedTodoCanBeClaimed | src/SlashTodo.Core/Repository.cs:21-31 | the reloaded todo can be claimed by any user, who becomes the claimer at version 2 |
| TodoRepository.FirstSaveStoresAdded | src/SlashTodo.Core/Repository.cs:33-49 | a todo added and saved into an empty partition leaves its one `TodoAdded` entity in the partition and loads back as itself |
| TodoRepository.ClaimedTodoSavesAndReloads | src/SlashTodo.Core/Repository.cs:21-49 | a todo added, saved, reloaded and claimed saves a second time onto its existing stream, publishes the `TodoClaimed`, and reloads claimed by the claimer at version 2 with nothing buffered |

## Left out

- `async`/`await` and `ConfigureAwait`: each call is modelled as completing before the next one starts, with no concurrency between them.
- JSON serialization and `Type.GetType` of the entity's stored type name: the entity holds the event value itself, so deserializing gives back what was serialized.
- `GetTable` (connection-string parsing, `CreateIfNotExistsAsync`): table creation is I/O and the model starts from an existing table.
- The order in which a table query returns rows: the model returns a partition's rows in table (insertion) order, while Azure returns them ordered by RowKey as text. `GetById` is stated up to permutation, so it does not depend on this.
- AzureTableEventStore.Delete: its Failed clause names the rows deleted before the failing batch as the first b*100 rows of the query in insertion order. Azure orders a partition by RowKey text ("0", "1", "10", "100", ...), so which rows are gone differs there. `FailedDeleteKeepsTheRest` states the part that holds for any order.
- `DateTime` timestamps: a clock reading is an `int` parameter.
- Version arithmetic is unbounded: the 32-bit wrap-around of `Version++` after 2^31-1 events is not modelled. RowKey parsing does check the 32-bit range.
- `int.Parse` leading and trailing white space and culture-specific signs, and `Guid.Parse`/`Guid.ToString`: ids are opaque strings, and RowKeys are only ever written by `ToString`.
- ETags, timestamps of table entities and concurrency on deletes: each batch runs against the table as it is at that moment.
- `Result.Count` of a batch: a committed batch counts all its rows, as Azure's batch reply does.
- Repository.GetById and Repository.Save: the repository is modelled over `AzureTableEventStore` only. The source's `Repository<T>` accepts any `IEventStore`, and its tests use a mock store that returns events in the order it was given and never rejects a save. Such stores are not instances of this model: every `Repository` and `RepositoryContract` fact assumes version-sorted reads and key-collision conflicts from the table.
- `IEventDispatcher` subscribers: publishing appends to a log and can fail at a chosen index.
- `Events.cs`, the web, authentication, Slack and configuration files: they are not part of this model.
- `Todo.cs` and the aggregate base class are not part of this model. The model decides the following from the tests:
  - `Claim` on a removed or ticked todo does nothing, checked before ownership;
  - `Free` does nothing on a removed or unclaimed todo;
  - `Remove` does nothing on a removed todo;
  - `Tick`/`Untick` skip the ownership check.
- TodoRules.TickIsIdempotent: a model decision, not a source rule. `Todo.cs` is not part of this model, and no test ticks a todo twice.
- TodoRules.UntickIsIdempotent: a model decision, not a source rule. No test or other modelled file calls `Untick`; only the `TodoUnticked` event exists.
- TodoRules.TickingNeedsNoClaim: a model decision, not a source rule. The one test that ticks (ClaimTodoTests.cs:118-133) ticks an unclaimed todo, so no test says whether ticking checks ownership.
- Todo.Tick: only its use on a fresh, unclaimed todo is fixed by a test; what it does on a removed, ticked or claimed todo is a model decision.
- Todo.Untick: the operation is inferred from the `TodoUnticked` event alone; what it does on a removed or unticked todo is a model decision.
- RepositoryContract.SaveCallsStoreWithVersionBeforeFirstRaise: the dummy aggregate raises mock events, and the version they report is set by the aggregate base class, which is not part of this model. The lemma therefore requires the first raised event to carry the aggregate's version; `TodoRepository.SaveHandsStoreVersionBeforeCommands` proves the promise for todos without that assumption.
- AzureTableEventStore.Save: a transport failure is modelled as a batch request the service never received, so the failed batch writes nothing. The source cannot tell this apart from a reply lost after Azure committed the batch. In that case the storage client's default retry re-sends the batch and gets a conflict on rows that are already stored. So the Failed clause "exactly the first b*100 sorted events were written" holds only under this abstraction; with a lost reply, batch b may also have been written.
- AzureTableEventStore.FailedSingleBatchWritesNothing: holds only under the same transport abstraction; a batch whose reply was lost after commit fails the save but is written.
- Repository.Save: the table clause for a store failure rests on the same abstraction; with a lost reply after commit, the failing batch's rows may also be in the table while the save reports failure and publishes nothing.
