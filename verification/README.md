# todo-liost storage core in Dafny

This is a model of the storage core of the todo-liost iOS to-do list app. It covers:

- the `TodoItem` dictionary codec;
- the in-memory item list of `FileCache`;
- the synchronising facade `PersistentStorage`, with its operation pipelines;
- the `AsyncOperation` lifecycle;
- the request and error rules of `BackendConnector`;
- the record-level rules of `CoreDataStorage`, and the conversions between items and database records.

The model is written as pure functions over immutable values. The local list is a `seq<Item>`. The database context is a `seq<Record>` that may hold several records with the same identifier. The network is represented by inputs that say what came back: a `Delivery` for the facade's callback-style calls, and a `Response` and `Payload` for the connector. The operation queue is represented by the plans it is handed (stages plus dependency edges) and by one run of each plan in dependency order.

Files and modules:

| file | module | models |
|---|---|---|
| `wrappers.dfy` | `Wrappers` | `Option` and `Result` |
| `uuid.dfy` | `Uuids` | `UUID(uuidString:)` and `uuidString` |
| `todo_item.dfy` | `TodoItems` | `TodoItemPriority` and `TodoItem` with its dictionary codec |
| `file_cache.dfy` | `FileCache` | both `FileCache` classes (in-memory list, `dump`, `load`) |
| `lifecycle.dfy` | `AsyncOperation` | `AsyncOperation` |
| `update_cache.dfy` | `UpdateCache` | `UpdateCacheOperation.main` |
| `storage.dfy` | `Storage` | `PersistentStorage`, `withSyncronization`, `sync`, and the operation classes |
| `backend.dfy` | `Backend` | `BackendConnector` |
| `core_data.dfy` | `CoreDataStorage` | `CoreDataStorage` and the `TodoItemDBModel` conversions |

Two behaviours of the code are worth knowing before reading the model:

- **The re-sync is not additive.** `UpdateCacheOperation.main` flushes the local list before applying the remote snapshot (`TodoLiost/Main/Storage/Storage.swift:74`), so local items that never reached the backend are dropped. `UpdateCache.ResyncDropsLocalOnly` states this, and `UpdateCache.ResyncIdempotent` shows the result does not depend on the starting list at all.
- **`UpdateCacheOperation` can hang the pipeline.** When it receives no snapshot, it returns without calling `finish()` (`Storage.swift:73`). The notification stage then never becomes ready. `Storage.RunSync` models this as written.

## Model

| member | source | states |
|---|---|---|
| Uuids.ParseUuid | TodoLiost/TodoItem.swift:64-68 | A string is accepted exactly when it is 36 characters, hex digits of either case, with dashes at positions 8, 13, 18 and 23; the identifier keeps every character, with hex letters read in upper case |
| Uuids.ParsePrinted | TodoLiost/TodoItem.swift:64-68 | Parsing the printed `uuidString` of an identifier gives the same identifier back |
| TodoItems.Number | TodoLiost/TodoItem.swift:16-25 | The priority code is between 0 and 2, and `fromInt` maps it back to the same priority |
| TodoItems.FromInt | TodoLiost/TodoItem.swift:27-38 | Every integer outside 0..2 decodes to `.no` |
| TodoItems.NumberFromInt | TodoLiost/TodoItem.swift:16-38 | For the codes 0..2, encoding after decoding gives the code back |
| TodoItems.RawValue | TodoLiost/TodoItem.swift:11-14 | The raw value of a priority parses back to that priority |
| TodoItems.FromRawValue | TodoLiost/TodoItem.swift:11-14 | Exactly the three strings "no", "normal" and "important" name a priority |
| TodoItems.RawValueFromRawValue | TodoLiost/TodoItem.swift:11-14 | A string that names a priority is that priority's raw value |
| TodoItems.ToJson | TodoLiost/TodoItem.swift:104-126 | "id" and "text" are always present; "priority" is present exactly when the priority is not normal, and holds its raw value; "deadLine" is present exactly when the item has a deadline, and holds its encoded text; "color" is present exactly when the item has a colour, and holds its string representation; no other key is written |
| TodoItems.Parse | TodoLiost/TodoItem.swift:63-102 | Parsing fails exactly when "text" is not a string or "deadLine" holds a string the date decoder rejects. Otherwise: the text is copied; an absent or unknown priority becomes normal; a well-formed "id" is kept, and a missing or malformed one is replaced by the generated identifier; the deadline is the decoder's reading of the "deadLine" string and the colour is read from the "color" string, each present exactly when its key holds a string |
| TodoItems.ParseId | TodoLiost/TodoItem.swift:64-68 | A well-formed "id" string is the identifier it spells; a missing, non-string or malformed one gives the generated identifier (properties used by `TodoItems.Parse` and `TodoItems.ParseToJson`) |
| TodoItems.ParseToJson | TodoLiost/TodoItem.swift:63-126 | Parsing an item's dictionary gives the item back, provided the date decoder inverts the encoder |
| TodoItems.PlainItemRoundTrip | TodoLiost/TodoItem.swift:63-126 | An item without deadline or colour round-trips whatever the date decoder does |
| FileCache.New | TodoLiost/FileCache.swift:23-25 | A new cache holds no identifier |
| FileCache.Flush | TodoLiost/Main/Storage/FileCache.swift:36-39 | A flushed cache holds no identifier |
| FileCache.FirstIndex | TodoLiost/FileCache.swift:36-38 | The result is an index of an item with the identifier and no earlier item has it; there is no result exactly when the identifier is absent |
| FileCache.Add | TodoLiost/FileCache.swift:27-34 | When the identifier is already stored the list is unchanged; otherwise the item is appended. Existing positions never change, and the identifiers grow by exactly the item's |
| FileCache.Update | TodoLiost/Main/Storage/FileCache.swift:60-74 | Succeeds exactly when the identifier is stored, and then puts the new item at the position of the first match; otherwise the list is unchanged |
| FileCache.Remove | TodoLiost/FileCache.swift:40-46 | Succeeds exactly when the identifier is stored, and then deletes the first match and shifts the later items down by one; otherwise the list is unchanged |
| FileCache.Get | TodoLiost/FileCache.swift:48-50 | Returns nothing exactly when the identifier is absent; otherwise returns the first stored item with that identifier |
| FileCache.EmptyCaches | TodoLiost/Main/Storage/FileCache.swift:36-39 | On a new or flushed cache, lookups find nothing and removals fail |
| FileCache.AddThenGet | TodoLiost/FileCache.swift:27-50 | After adding an item with a new identifier, a lookup of that identifier returns the item |
| FileCache.AddKeepsFirst | TodoLiost/FileCache.swift:27-34 | Adding an item whose identifier is already stored changes no lookup |
| FileCache.UpdatePreservesDistinct | TodoLiost/Main/Storage/FileCache.swift:60-70 | An update with the same identifier, or with a new one, keeps identifiers distinct |
| FileCache.RemovePreservesDistinct | TodoLiost/FileCache.swift:40-46 | Removal keeps identifiers distinct and removes the identifier entirely |
| FileCache.AddPreservesDistinct | TodoLiost/FileCache.swift:27-34 | Adding keeps identifiers distinct |
| FileCache.OpsPreserveDistinct | TodoLiost/FileCache.swift:27-46 | Any sequence of adds and removes keeps identifiers distinct |
| FileCache.Dump | TodoLiost/FileCache.swift:67-73 | The document has the single key "items": a list with one dictionary per item, in list order |
| FileCache.ParsedIndices | TodoLiost/FileCache.swift:100-104 | Lists, in ascending order, exactly the positions of the entries that parse |
| FileCache.ParseEntries | TodoLiost/FileCache.swift:100-104 | Yields at most one item per entry, and every item yielded is the parse of some entry |
| FileCache.ParseEntriesKeepsParsed | TodoLiost/FileCache.swift:100-104 | The items yielded are, position by position, the parses of exactly the entries that parse, in entry order |
| FileCache.Load | TodoLiost/FileCache.swift:94-110 | Succeeds exactly when the document is a dictionary whose "items" is a list of dictionaries. On failure the list is unchanged; on success the old list is kept as a prefix and what follows it is the parse of every entry that parses, in entry order |
| FileCache.LoadSkipsUnparseable | TodoLiost/Main/Storage/FileCache.swift:136-143 | An entry that does not parse is skipped, and the entries around it are appended in order |
| FileCache.ParseEntriesOfDump | TodoLiost/FileCache.swift:67-104 | Parsing the entries of a dump yields the dumped items |
| FileCache.LoadDump | TodoLiost/Main/Storage/FileCache.swift:109-143 | Loading a dump appends exactly the dumped items, in order |
| FileCache.LoadDuplicates | TodoLiost/Main/Storage/FileCache.swift:136-143 | Loading does not de-duplicate: loading a cache's own dump repeats its identifiers |
| AsyncOperation.Cancel | TodoLiost/Main/Storage/AsyncOperation.swift:16-19 | Cancelling sets the cancelled flag and nothing else |
| AsyncOperation.Finish | TodoLiost/Main/Storage/AsyncOperation.swift:32-36 | `finish()` raises `isFinished` and touches nothing else |
| AsyncOperation.Start | TodoLiost/Main/Storage/AsyncOperation.swift:15-25 | A cancelled operation finishes without executing. Otherwise it executes, and it is finished exactly when it already was or `main()` calls `finish()` |
| AsyncOperation.StartOutcomes | TodoLiost/Main/Storage/AsyncOperation.swift:15-30 | The default `main()` finishes at once; a cancelled operation finishes without executing; a `main()` that never calls `finish()` leaves the operation executing and unfinished |
| AsyncOperation.FlagsAreStable | TodoLiost/Main/Storage/AsyncOperation.swift:12-48 | Once set, finished, executing and cancelled stay set whatever happens |
| AsyncOperation.CancelledNeverExecutes | TodoLiost/Main/Storage/AsyncOperation.swift:15-19 | An operation cancelled before it starts never executes |
| UpdateCache.LastWithId | TodoLiost/Main/Storage/Storage.swift:75-82 | Finds nothing exactly when the snapshot lacks the identifier; otherwise finds the snapshot's last item with it |
| UpdateCache.UpdateCacheMain | TodoLiost/Main/Storage/Storage.swift:72-84 | Without a snapshot the list is untouched and `finish()` is not called. With one, `finish()` is called, the identifiers are exactly the snapshot's, each once, and each finds the snapshot's last item for it |
| UpdateCache.Upsert | TodoLiost/Main/Storage/Storage.swift:76-81 | One loop iteration: a stored identifier has its first item replaced in place, and a new one is appended (lookups and identifiers after it: `UpdateCache.UpsertGet`, `UpdateCache.UpsertIds`) |
| UpdateCache.UpsertAll | TodoLiost/Main/Storage/Storage.swift:75-82 | The loop over the snapshot leaves an empty snapshot's list alone and grows the list by at most one item per snapshot item (identifiers and lookups: `UpdateCache.UpsertAllIds`, `UpdateCache.UpsertAllGet`) |
| UpdateCache.UpsertIds | TodoLiost/Main/Storage/Storage.swift:76-81 | One loop iteration adds exactly the item's identifier |
| UpdateCache.UpsertDistinct | TodoLiost/Main/Storage/Storage.swift:76-81 | One loop iteration keeps identifiers distinct |
| UpdateCache.ReplaceGet | TodoLiost/Main/Storage/Storage.swift:76-77 | The update branch makes the identifier find the new item and changes no other lookup |
| UpdateCache.AppendGet | TodoLiost/Main/Storage/Storage.swift:78-79 | The add branch makes the identifier find the new item and changes no other lookup |
| UpdateCache.UpsertGet | TodoLiost/Main/Storage/Storage.swift:76-81 | After one iteration the item's identifier finds the item and every other lookup is unchanged |
| UpdateCache.UpsertAllIds | TodoLiost/Main/Storage/Storage.swift:75-82 | The loop adds exactly the snapshot's identifiers |
| UpdateCache.UpsertAllDistinct | TodoLiost/Main/Storage/Storage.swift:75-82 | The loop keeps identifiers distinct |
| UpdateCache.UpsertAllGet | TodoLiost/Main/Storage/Storage.swift:75-82 | After the loop, a snapshot identifier finds the snapshot's last item for it, and every other identifier finds what it found before |
| UpdateCache.ResyncIdempotent | TodoLiost/Main/Storage/Storage.swift:72-84 | Re-syncing twice with the same snapshot equals re-syncing once, and the result does not depend on the starting list |
| UpdateCache.ResyncDropsLocalOnly | TodoLiost/Main/Storage/Storage.swift:72-84 | A local item whose identifier the snapshot lacks is gone after the re-sync |
| UpdateCache.UpsertAllSnoc | TodoLiost/Main/Storage/Storage.swift:75-82 | The loop over a snapshot with one more item is one more iteration |
| UpdateCache.ResyncOfDistinctSnapshot | TodoLiost/Main/Storage/Storage.swift:72-84 | A snapshot without repeated identifiers becomes exactly the local list, in order |
| Storage.Compare | TodoLiost/Main/Storage/Storage.swift:146-149 | There is no verdict exactly when there is no actual value; the verdict is "equal" exactly when the actual value is the expected one |
| Storage.Respond | TodoLiost/Main/Storage/Storage.swift:175-185 | "Sync" requests a sync exactly when a notifier is set; "Cancel" only logs |
| Storage.AlertButtons | TodoLiost/Main/Storage/Storage.swift:175-185 | The alert is titled "Error" with the message "Server sync needed" and offers "Cancel" then "Sync"; only the "Sync" button can start a sync, and only when a notifier is set |
| Storage.Decide | TodoLiost/Main/Storage/Storage.swift:214-227 | No verdict is only logged; equal values are only logged; unequal values queue the "Server sync needed" alert when a notifier is set, and otherwise are only logged |
| Storage.RemoteOpFlags | TodoLiost/Main/Storage/Storage.swift:48-62 | The operation wrapping a remote call finishes exactly when the handler fires or the operation was cancelled, and executes exactly when it was not cancelled first |
| Storage.ResultSlot | TodoLiost/Main/Storage/Storage.swift:49-60 | The operation's `result` is set exactly when the handler delivers, and then holds the delivered value |
| Storage.WithSyncCallback | TodoLiost/Main/Storage/Storage.swift:242-276 | Returns the local value. The check stays undecided exactly when the remote handler never fires, and is logged as indeterminate exactly when the call was cancelled. A delivered value is logged as consistent exactly when it equals the local one, and an alert is queued exactly when it differs and a notifier is set, and that alert is always "Server sync needed" with Cancel and Sync |
| Storage.WithSyncBlocking | TodoLiost/Main/Storage/Storage.swift:205-240 | Returns the local value; when the remote call returns a value, the check reaches a verdict: consistent, alert, or missing notifier |
| Storage.CheckReturnsLocal | TodoLiost/Main/Storage/Storage.swift:242-276 | The returned value does not depend on the remote side or on the notifier |
| Storage.OverloadsAgree | TodoLiost/Main/Storage/Storage.swift:205-276 | The two overloads agree whenever the callback delivers |
| Storage.CheckPlan | TodoLiost/Main/Storage/Storage.swift:229-236 | The check queues a chain of four stages from the remote call to the decision (its only run order: `Storage.CheckOrderIsForced`) |
| Storage.SyncPlan | TodoLiost/Main/Storage/Storage.swift:314-326 | `sync()` queues nothing exactly when no notifier is set, and otherwise a chain of four stages from the web request to the notification (its only run order: `Storage.SyncOrderIsForced`) |
| Storage.PlansAreChains | TodoLiost/Main/Storage/Storage.swift:229-236 | Each plan links every stage to the one submitted just before it; without a notifier `sync()` queues nothing |
| Storage.ChainOrderIsForced | TodoLiost/Main/Storage/Storage.swift:229-236 | In a chain of four stages, the submission order is the only order that respects the dependencies |
| Storage.SubmissionOrdersAreAdmissible | TodoLiost/Main/Storage/Storage.swift:320-326 | Both plans can run in their submission order |
| Storage.SyncOrderIsForced | TodoLiost/Main/Storage/Storage.swift:320-326 | The sync stages always run as fetch, transfer, update, notify |
| Storage.CheckOrderIsForced | TodoLiost/Main/Storage/Storage.swift:265-272 | The check stages always run as remote call, transfer, compare, decide |
| Storage.RunSync | TodoLiost/Main/Storage/Storage.swift:308-328 | The notifier is told exactly when it is set and the remote list arrived; then the local list is the re-sync of that list, otherwise it is untouched. A cancelled fetch leaves the update stage executing and never finished |
| Storage.RunSyncIdempotent | TodoLiost/Main/Storage/Storage.swift:308-328 | Syncing again with the same remote list changes nothing |
| Storage.SyncIntoEmptyCache | TodoLiost/Main/Storage/Storage.swift:308-328 | Syncing an empty cache with a remote list without repeated identifiers yields that list |
| Storage.FacadeAdd | TodoLiost/Main/Storage/Storage.swift:278-281 | The local add is applied, nothing is returned, and no consistency check is queued |
| Storage.FacadeUpdate | TodoLiost/Main/Storage/Storage.swift:283-289 | Applies the local update and returns whether the identifier was stored; an alert is queued exactly when the delivered remote flag differs and a notifier is set, and it is the "Server sync needed" alert |
| Storage.FacadeRemove | TodoLiost/Main/Storage/Storage.swift:291-298 | Applies the local removal and returns whether the identifier was stored; an alert is queued exactly when the delivered remote flag differs and a notifier is set, and it is the "Server sync needed" alert |
| Storage.FacadeGet | TodoLiost/Main/Storage/Storage.swift:300-306 | Returns the local lookup and leaves the list alone; an alert is queued exactly when the delivered remote item differs and a notifier is set, and it is the "Server sync needed" alert |
| Storage.FacadeItems | TodoLiost/Main/Storage/Storage.swift:157-163 | Returns the local list; an alert is queued exactly when the delivered remote list differs and a notifier is set, and it is the "Server sync needed" alert |
| Storage.MismatchRaisesAlert | TodoLiost/Main/Storage/Storage.swift:157-163 | If the remote copy of the only item has a different text, the local list is returned and the inconsistency alert is queued |
| Storage.AddedItemIsLocallyVisible | TodoLiost/Main/Storage/Storage.swift:278-306 | An item added through the facade is found by a later `get`, whatever the remote side does |
| Backend.CheckStatus | TodoLiost/Main/Net/BackendConnector.swift:245-262 | An error is returned exactly for HTTP statuses 400, 401 and 404, and it is the error that stands for that status |
| Backend.StatusRoundTrip | TodoLiost/Main/Net/BackendConnector.swift:245-262 | Each status error is what its own status classifies as |
| Backend.OtherStatusesAreNoError | TodoLiost/Main/Net/BackendConnector.swift:245-262 | Every other status, a missing response and a non-HTTP response classify as no error |
| Backend.Request | TodoLiost/Main/Net/BackendConnector.swift:50-89 | A missing token fails first; then a failed endpoint factory fails. Otherwise the call succeeds exactly when the status is not an error, returning the decoded body when there was one; a status error is thrown even when the body decoded |
| Backend.TokenCheckComesFirst | TodoLiost/Main/Net/BackendConnector.swift:18-22 | Without a token the outcome does not depend on the endpoint, response or body |
| Backend.StatusErrorBeatsBody | TodoLiost/Main/Net/BackendConnector.swift:26-47 | A 400 status is thrown even when the body decoded; a 200 status returns the decoded body |
| CoreDataStorage.Fill | TodoLiost/Main/CoreData/TodoItemDBModelExtensions.swift:12-20 | Every attribute is copied from the item, the priority as its integer code; the colour object is the item's colour, and there is none when the item has no colour |
| CoreDataStorage.FromRecord | TodoLiost/Main/CoreData/TodoItemDBModelExtensions.swift:24-33 | Reading a record never fails: attributes are copied, the priority is decoded with `fromInt`, a stored colour reads as that colour, and an object that is not a colour reads as no colour |
| CoreDataStorage.FillThenRead | TodoLiost/Main/CoreData/TodoItemDBModelExtensions.swift:12-33 | Writing an item to a record and reading it back gives the item |
| CoreDataStorage.ReadThenFill | TodoLiost/Main/CoreData/TodoItemDBModelExtensions.swift:12-33 | A record with a priority code in 0..2 and no foreign colour object is reproduced by reading it and writing it back |
| CoreDataStorage.Matching | TodoLiost/Main/CoreData/CoreDataStorage.swift:65-70 | The fetch by identifier returns exactly the indices of the matching records, in ascending order |
| CoreDataStorage.MatchingSingle | TodoLiost/Main/CoreData/CoreDataStorage.swift:71 | The fetch returns one object exactly when one record has the identifier, and that object is the record |
| CoreDataStorage.SingleMatch | TodoLiost/Main/CoreData/CoreDataStorage.swift:70-71 | Yields an index exactly when one record has the identifier, and then that record's index |
| CoreDataStorage.Flush | TodoLiost/Main/CoreData/CoreDataStorage.swift:19-32 | After a flush the store holds no record at all |
| CoreDataStorage.FlushEmptiesStore | TodoLiost/Main/CoreData/CoreDataStorage.swift:19-132 | After a flush `get` finds nothing, `update` and `remove` fail, and the store reads as no items |
| CoreDataStorage.Add | TodoLiost/Main/CoreData/CoreDataStorage.swift:53-61 | Always appends the filled record and keeps every existing record, even one with the same identifier |
| CoreDataStorage.Update | TodoLiost/Main/CoreData/CoreDataStorage.swift:63-85 | Succeeds exactly when one record matches, and then only that record is overwritten with the filled item; otherwise nothing changes |
| CoreDataStorage.Remove | TodoLiost/Main/CoreData/CoreDataStorage.swift:87-108 | Succeeds exactly when one record matches; then the store is the old one with exactly that record cut out, in order, so every other record is kept, duplicates included. Otherwise nothing changes |
| CoreDataStorage.DeleteAt | TodoLiost/Main/CoreData/CoreDataStorage.swift:95-101 | Cutting out the single matching record leaves one record fewer and none with the identifier; every other record is kept, and the removed record is exactly what the multiset lost |
| CoreDataStorage.Get | TodoLiost/Main/CoreData/CoreDataStorage.swift:110-132 | Returns an item exactly when one record matches, and then the item read from it |
| CoreDataStorage.Items | TodoLiost/Main/CoreData/CoreDataStorage.swift:34-51 | Returns one item per record, in fetch order, each the record read as an item |
| CoreDataStorage.AddThenGet | TodoLiost/Main/CoreData/CoreDataStorage.swift:53-132 | Adding a new identifier makes it readable; adding it a second time makes `get` find nothing and `update` and `remove` fail |
| CoreDataStorage.UpdateThenGet | TodoLiost/Main/CoreData/CoreDataStorage.swift:63-132 | After updating the single record with an item of its identifier, `get` returns that item |
| CoreDataStorage.RemoveThenGet | TodoLiost/Main/CoreData/CoreDataStorage.swift:87-132 | After a successful removal, `get` finds nothing and a second removal fails |

## Left out

- Dates and colours are opaque tokens: `Stamp` holds the text the JSON encoder writes, and `Colour` holds the `CIColor` string representation. The date decoder is a parameter of `Parse`. Its encoder/decoder agreement is a precondition of the round trip, not something proved.
- TodoItems.ParseToJson: the colour is its string representation, so the round trip string → `UIColor` → string (`TodoItem.swift:90`, `123`) is assumed rather than proved. Colour equality in the consistency check (`Storage.swift:148`) is likewise taken as equality of those strings, not `UIColor ==`.
- TodoItems.ToJson: a date the encoder fails to encode, or whose bytes are not UTF-8, is silently left out of the dictionary by the empty `catch {}` (`TodoItem.swift:114-120`). The model assumes encoding always succeeds, so "deadLine" is written whenever there is a deadline.
- Storage.Compare: texts are compared as sequences of characters. Swift's `String ==` compares by canonical equivalence, so two canonically equal texts with different encodings are consistent in the source but a mismatch, raising an alert, in the model.
- `createdAt` and `changedAt` are not carried by the item dictionary. `Parse` takes them, and the identifier `UUID()` generates, from a `Defaults` input. Random identifier generation is not modelled.
- File I/O (`save(to:)`, `dumps()`, `load(from:)`'s file read and `JSONSerialization`) is left out. `Load` starts from the already decoded document, and a read or decode failure is the same as a document of the wrong shape.
- `OperationQueue` concurrency is not modelled: the maximum of two concurrent operations, thread interleavings, `DispatchQueue.main`, and key-value observation notifications. Instead, a stage order the dependency edges admit is shown to be unique, and the pipelines are run in that order.
- The weak notifier reference (`weak var notifierDelegate`) is reduced to a `hasNotifier` flag fixed for the whole run. A notifier released between stages is not modelled.
- The decision stage's `guard let self = self else { return }` (`Storage.swift:214-215`, `250-251`) is left out. When the facade has been released, that stage does nothing; the `Effect` values assume the facade is still alive.
- `FileCache.New` models only the default `init(todoItems: [])`. The source also accepts any starting list and stores it unchecked (`TodoLiost/FileCache.swift:23-25`), so a cache can start with duplicate identifiers. `FileCache.OpsPreserveDistinct` therefore assumes a starting list with distinct identifiers, which holds for the default constructor.
- `Storage.WithSyncBlocking` assumes the value-returning remote call returns. If it never returns, the check never reaches a verdict; the model has no case for that.
- `URLSession`, the semaphore wait, `Endpoint` construction, the `lastKnownRevision` parameters and the response models are inputs or left out. `Backend.Request` takes the endpoint factory's outcome, the response and the decoded body as parameters.
- `Backend.Request` is one function for all six request methods, whose bodies differ only in which endpoint factory is called and what type is decoded. The `DataIsEmpty`, `EncodingError` and `ParseError` errors are declared but never thrown by the connector; it only logs a missing or undecodable body.
- `CloudStorage` (the remote store the facade calls) is represented only by the `Delivery` values it produces. `CoreDataStack`, its `commit()`, and the context's `perform` queue are left out.
- `CoreDataStorage.Flush` and `CoreDataStorage.Remove`: the source deletes without committing. The model treats the deletion as visible to later fetches on the same context, which is what Core Data does before a save. Persistence across launches is not modelled.
- The later `FileCache` also mirrors every call into `CoreDataStorage` without waiting for it, and fills its list from the database when constructed. Those calls are modelled separately by the `CoreDataStorage` module; the interleaving of the two stores is left out.
- `FileCache.Update` keeps identifiers distinct only when the new item has the updated identifier or one not stored yet (`FileCache.UpdatePreservesDistinct`). The source does not check this and would store a duplicate.
- Logging (`DDLogInfo`, `DDLogError`) and the UIKit alert presentation are reduced to the `Effect` and `Response` values.
- The revision counter (`lastKnownRevision`) is only passed through to the endpoint factories, which are not modelled, so no property about revisions is stated.
- CoreDataStorage.Matching: the fetch predicate `id == %@` compares the UUID attribute with the identifier's `uuidString` (`CoreDataStorage.swift:66-68`, `90-92`, `113-115`). The model assumes Core Data matches exactly the records with that identifier. It also assumes that fetches without sort descriptors return records in insertion order, which `Matching`, `Items` and `Add` rely on; Core Data does not promise that order.
- CoreDataStorage.Matching: every `try context.fetch(...)` in `flush`, `todoItems`, `update`, `remove` and `get` is wrapped in a `catch` that calls `fatalError` (`CoreDataStorage.swift:27-29`, `46-48`, `80-82`, `103-105`, `127-129`), so a failed fetch ends the app. The model assumes every fetch succeeds. `todoItems` also calls `fatalError` when a record cannot be read back (`CoreDataStorage.swift:42`); in the model `FromRecord` never fails, so that crash cannot be reached.
