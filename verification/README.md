# alfresco-ai-framework core, modelled in Dafny

This project models the core of the Alfresco AI framework. It has two halves.

- **alfresco-ai-sync.** The synchronisation service keeps a list of tracked folders, which are the folders carrying the sync aspect. On start-up it backfills the documents modified since each folder's "updated" watermark. While that runs, it queues the repository events for tracked content. Once the initial sync completes, it handles those events live: a creation or an update with content uploads the document to the AI service, a deletion deletes it. After a successful live dispatch the handler calls `updateTime` on an entry of the folder list: the entry at the hierarchy position of the node's first tracked ancestor, which is not in general that ancestor (see "Findings").
- **ai-rag-framework.** The ingestion side tags parsed chunks with their document, folder and file name. It removes the chunks stored earlier for that document from the vector store, then adds the new ones. A splitter cuts over-long documents into parts of about 20000 characters, cutting at paragraph and sentence breaks where it can.

The model follows the Java code as written, defects included. Each defect found also has a corrected definition next to it, with the intended property proved about it (see "Findings"). The state machine (`ContentHandler`, `FolderHandler`, `App`) is built on the as-written definitions, so its lemmas describe what the code does.

External services are oracles passed in as parameters:

- **Search answers.** The folder search answers, the page sequence of the backfill search (`Page`), and the vector-store search answer (`SearchAnswer`).
- **Remote outcomes.** Which uploads fail (`failing`), whether the dispatched AI call and `updateTime` succeed (`Replies`), whether the folder searches of the initial sync succeed (`search`), which folders' `updateTime(id, true)` fails (`updateFails`), and whether the vector-store delete fails.

Every call the engine makes is recorded in a trace of `Action`s at the moment it is issued. A Java exception is an `Outcome` (`Thrown(ex)`), and `RuntimeException` wrapping is `Runtime(cause)`. Java `null` is `None`.

Modules, one per file:

- `Common`: `Option`, `Result`, the exception kinds, `Outcome`.
- `RepoEvents`: events, node resources, `ExtractNode`.
- `SharedConfig`: the flag, the unbounded FIFO queue, the shared state and the action trace.
- `Filters`: `ParentFolderFilter` and `AspectFilter`.
- `AlfrescoClient`: folder discovery, the backfill loop, batch counting, `updateTime` properties.
- `ContentHandler`: the folder list, `handleEvent`, dispatch, the `updateTime` target, SDK delivery.
- `FolderHandler`: folder events and their SDK delivery.
- `App`: `run`, `performInitialSync`, `processQueuedEvents`, `processEventQueue`.
- `Documents`: Spring AI documents, and joining contents.
- `DocumentSplitter`: the splitter.
- `IngestionService`: the vector-store upsert.

## Model


| member | source | states |
|---|---|---|
| RepoEvents.ExtractNode | alfresco-ai-sync/src/main/java/org/alfresco/events/handler/ContentHandler.java:185-192 | a node is extracted exactly when the event's resource is present and a node resource, and it is that resource |
| SharedConfig.Initial | alfresco-ai-sync/src/main/java/org/alfresco/SharedConfig.java:28-43 | at start-up the initial-sync flag is false and the event queue is empty |
| SharedConfig.Offer | alfresco-ai-sync/src/main/java/org/alfresco/SharedConfig.java:28-31 | adding to the unbounded queue never refuses: the element lands at the tail and every earlier element keeps its place |
| SharedConfig.Poll | alfresco-ai-sync/src/main/java/org/alfresco/SharedConfig.java:28-31 | poll answers nothing exactly on an empty queue; otherwise the head followed by the rest is the queue |
| SharedConfig.QueueIsFifo | alfresco-ai-sync/src/main/java/org/alfresco/SharedConfig.java:28-31 | polling until empty returns the offered events in offer order, each exactly once |
| SharedConfig.OfferAllAppends | alfresco-ai-sync/src/main/java/org/alfresco/SharedConfig.java:28-31 | offering a list of events one by one appends the list to the queue |
| SharedConfig.PollAllIsIdentity | alfresco-ai-sync/src/main/java/org/alfresco/SharedConfig.java:28-31 | polling a queue until empty yields its contents in order |
| Filters.AnyTracked | alfresco-ai-sync/src/main/java/org/alfresco/events/filter/ParentFolderFilter.java:68-74 | the hierarchy scan answers true exactly when some hierarchy position holds a tracked id |
| Filters.ParentFolderTest | alfresco-ai-sync/src/main/java/org/alfresco/events/filter/ParentFolderFilter.java:48-74 | an event passes exactly when it is a node event with a node resource, and some ancestor in the primary hierarchy is tracked |
| Filters.ParentFolderTestIgnoresOrder | alfresco-ai-sync/src/main/java/org/alfresco/events/filter/ParentFolderFilter.java:68-74 | the answer depends only on which ids the hierarchy contains, not on their order or repetition |
| Filters.UntrackedNeverPasses | alfresco-ai-sync/src/main/java/org/alfresco/events/filter/ParentFolderFilter.java:48-74 | a node with no tracked ancestor, an empty hierarchy in particular, is rejected |
| Filters.AspectTest | alfresco-ai-sync/src/main/java/org/alfresco/events/filter/AspectFilter.java:27-36 | a ClassCastException exactly when the current or prior resource is not a node; otherwise true exactly when the aspect is present now and was absent before |
| Filters.AspectTestFailClosed | alfresco-ai-sync/src/main/java/org/alfresco/events/filter/AspectFilter.java:27-36 | the fail-closed filter accepts exactly when the current resource is a node with the aspect and the prior one is not a node with it |
| Filters.AspectTestFailClosedAgrees | alfresco-ai-sync/src/main/java/org/alfresco/events/filter/AspectFilter.java:27-36 | wherever the code does not throw, the fail-closed filter gives the same answer; a non-node current resource is rejected |
| Filters.AspectTestThrowsOnForeignPrior | alfresco-ai-sync/src/main/java/org/alfresco/events/filter/AspectFilter.java:30-31 | a node that newly gains the aspect, with a prior resource that is not a node, makes the filter throw where the fail-closed filter accepts |
| Filters.AspectTransitions | alfresco-ai-sync/src/main/java/org/alfresco/events/filter/AspectFilter.java:32-35 | only a newly attached aspect passes: one that was present before and after, one that was removed, or a missing resource does not |
| Filters.Test | alfresco-ai-sync/src/main/java/org/alfresco/events/filter/ParentFolderFilter.java:48-60 | a parent-folder filter never fails and accepts exactly the node events below a listed folder; an aspect filter throws ClassCastException exactly when the current or prior resource is not a node, and otherwise accepts exactly the events that newly attach the aspect |
| Filters.TestAgreesWithAccepts | alfresco-ai-sync/src/main/java/org/alfresco/events/filter/AspectFilter.java:27-36 | wherever a filter answers, its answer is the fail-closed reading's; where it throws on a foreign current resource, the fail-closed reading rejects |
| AlfrescoClient.GetSyncFolders | alfresco-ai-sync/src/main/java/org/alfresco/service/AlfrescoClient.java:64-73 | the tracked ids are the folder search's row ids, one per row, in row order |
| AlfrescoClient.GetDateTime | alfresco-ai-sync/src/main/java/org/alfresco/service/AlfrescoClient.java:130-135 | a date is read exactly when the row has properties holding the key, and it is the stored value |
| AlfrescoClient.FoldersToSync | alfresco-ai-sync/src/main/java/org/alfresco/service/AlfrescoClient.java:99-120 | every selected folder has an "updated" watermark strictly before its newest document's modification time; at most one per candidate |
| AlfrescoClient.FoldersToSyncSelects | alfresco-ai-sync/src/main/java/org/alfresco/service/AlfrescoClient.java:108-118 | a folder is selected exactly when it holds a document and has a watermark older than that document, and its record carries both dates and the newest time |
| AlfrescoClient.FoldersToSyncKeepsOrder | alfresco-ai-sync/src/main/java/org/alfresco/service/AlfrescoClient.java:99-119 | selection keeps the folder search's order: it distributes over concatenated search results |
| AlfrescoClient.SkippedFolders | alfresco-ai-sync/src/main/java/org/alfresco/service/AlfrescoClient.java:115 | a watermark equal to the newest modification time, or a missing watermark, is not selected |
| AlfrescoClient.NeverSyncedFolderIsSkipped | alfresco-ai-sync/src/main/java/org/alfresco/service/AlfrescoClient.java:115 | a folder holding documents but lacking the "updated" property is not selected, though the intended rule selects it |
| AlfrescoClient.FoldersToSyncIntended | alfresco-ai-sync/src/main/java/org/alfresco/service/AlfrescoClient.java:108-118 | with the intended rule, every never-synced folder holding documents is selected, as is every folder the code selects |
| AlfrescoClient.UploadsPerRow | alfresco-ai-sync/src/main/java/org/alfresco/service/AlfrescoClient.java:194-207 | a batch issues exactly one upload per row, for that row's id and name, in row order |
| AlfrescoClient.SucceededAdds | alfresco-ai-sync/src/main/java/org/alfresco/service/AlfrescoClient.java:194-207 | the success count of two batches is the sum of their counts |
| AlfrescoClient.SucceededBounds | alfresco-ai-sync/src/main/java/org/alfresco/service/AlfrescoClient.java:194-207 | the count never exceeds the batch size, and equals it exactly when no row fails |
| AlfrescoClient.ProcessDocumentBatch | alfresco-ai-sync/src/main/java/org/alfresco/service/AlfrescoClient.java:194-207 | every row is attempted even after a failure; the counter rises by the number of rows whose processing did not throw |
| AlfrescoClient.UploadsAdd | alfresco-ai-sync/src/main/java/org/alfresco/service/AlfrescoClient.java:194-207 | the uploads of two batches are the first batch's followed by the second's |
| AlfrescoClient.ExecuteSearchRequest | alfresco-ai-sync/src/main/java/org/alfresco/service/AlfrescoClient.java:247-258 | a backfill request asks for the folder's content modified since its watermark, oldest first, one page of maxItems from offset 0, whatever was fetched before |
| AlfrescoClient.Fetched | alfresco-ai-sync/src/main/java/org/alfresco/service/AlfrescoClient.java:153-167 | the do-while consumes the answers up to and including the first one without "more items" |
| AlfrescoClient.SynchronizeDocuments | alfresco-ai-sync/src/main/java/org/alfresco/service/AlfrescoClient.java:153-186 | the loop issues `Fetched` requests, stopping at the first answer without "more items"; every request is identical (skipCount 0, the folder's watermark, ascending); the uploads and count cover exactly the rows of the answers fetched |
| AlfrescoClient.BackfillNeverAdvances | alfresco-ai-sync/src/main/java/org/alfresco/service/AlfrescoClient.java:157-166 | against a faithful repository holding more than maxItems documents, no finite run of answers stops the loop, and only the first page is ever fetched |
| AlfrescoClient.PagedEntriesIntended | alfresco-ai-sync/src/main/java/org/alfresco/service/AlfrescoClient.java:255 | with skipCount advancing by maxItems, the fetched pages cover every matching document exactly once, in order |
| AlfrescoClient.UpdateTimeProperties | alfresco-ai-sync/src/main/java/org/alfresco/service/AlfrescoClient.java:266-277 | "updated" is always set, "published" only when asked for (or when both keys coincide), and both get the same timestamp |
| ContentHandler.Initialize | alfresco-ai-sync/src/main/java/org/alfresco/events/handler/ContentHandler.java:68-78 | a failed folder search is fatal with IllegalStateException; otherwise the list is the search's ids in order |
| ContentHandler.InitializedFoldersAreWatched | alfresco-ai-sync/src/main/java/org/alfresco/events/handler/ContentHandler.java:68-78 | after initialization a node event below any folder the search found passes the content filter, and the filter exists |
| ContentHandler.AddFolder | alfresco-ai-sync/src/main/java/org/alfresco/events/handler/ContentHandler.java:56-58 | the id becomes tracked, nothing else is added, and the earlier list is kept as a prefix |
| ContentHandler.RemoveFolder | alfresco-ai-sync/src/main/java/org/alfresco/events/handler/ContentHandler.java:60-62 | as written, "removing" leaves the id tracked: the list grows by one with the id at the end |
| ContentHandler.RemoveFolderKeepsFolder | alfresco-ai-sync/src/main/java/org/alfresco/events/handler/ContentHandler.java:60-62 | removing the only tracked folder duplicates it, where the intended removal empties the list |
| ContentHandler.RemoveFolderIntended | alfresco-ai-sync/src/main/java/org/alfresco/events/handler/ContentHandler.java:60-62 | the intended removal untracks the id and keeps exactly the other ids |
| ContentHandler.GetEventFilter | alfresco-ai-sync/src/main/java/org/alfresco/events/handler/ContentHandler.java:126-132 | an empty list is an IllegalStateException; otherwise a parent-folder filter over the list itself |
| ContentHandler.SyncFolderId | alfresco-ai-sync/src/main/java/org/alfresco/events/handler/ContentHandler.java:154-158 | the first hierarchy entry that is tracked, or "" when no entry is |
| ContentHandler.FirstTrackedIndex | alfresco-ai-sync/src/main/java/org/alfresco/events/handler/ContentHandler.java:96-99 | -1 exactly when no hierarchy entry is tracked; otherwise the position of the first tracked entry |
| ContentHandler.SyncFolderIdAgrees | alfresco-ai-sync/src/main/java/org/alfresco/events/handler/ContentHandler.java:96-99 | both first-match searches name the same hierarchy entry |
| ContentHandler.UpdateTimeTarget | alfresco-ai-sync/src/main/java/org/alfresco/events/handler/ContentHandler.java:96-100 | the lookup succeeds exactly when the hierarchy position is a valid list index, and then names the list entry at that position |
| ContentHandler.UpdateTimeTargetUsesWrongList | alfresco-ai-sync/src/main/java/org/alfresco/events/handler/ContentHandler.java:96-100 | a document two levels below a tracked folder makes the lookup throw, or refresh another folder, where the intended target is its own folder |
| ContentHandler.UpdateTimeTargetIntended | alfresco-ai-sync/src/main/java/org/alfresco/events/handler/ContentHandler.java:96-100 | the intended target exists exactly when some ancestor is tracked, and it is the folder the upload names |
| ContentHandler.LiveStep | alfresco-ai-sync/src/main/java/org/alfresco/events/handler/ContentHandler.java:85-110 | a non-node resource is rejected with IllegalArgumentException and issues nothing; every other failure is rethrown wrapped in RuntimeException |
| ContentHandler.HandleEvent | alfresco-ai-sync/src/main/java/org/alfresco/events/handler/ContentHandler.java:85-110 | a non-node event changes nothing; before the sync completes the event is only queued; afterwards the live calls are issued and nothing is queued |
| ContentHandler.ProcessEvent | alfresco-ai-sync/src/main/java/org/alfresco/events/handler/ContentHandler.java:137-180 | at most one AI call: the node's upload into its first tracked folder for a creation or an update whose prior node had content, its delete for a deletion, nothing otherwise; IOException exactly when that call fails; ClassCastException exactly for an update whose prior resource is not a node |
| ContentHandler.LiveDispatchByKind | alfresco-ai-sync/src/main/java/org/alfresco/events/handler/ContentHandler.java:137-180 | in live mode, exactly one upload, into the first tracked folder, for a creation or an update whose prior node had content, and none otherwise; exactly one delete, of the node itself, for a deletion, and none otherwise |
| ContentHandler.CountUploadsAdd | alfresco-ai-sync/src/main/java/org/alfresco/events/handler/ContentHandler.java:137-152 | the uploads of two call sequences add up |
| ContentHandler.UpdateTimeOnlyAfterDispatch | alfresco-ai-sync/src/main/java/org/alfresco/events/handler/ContentHandler.java:92-100 | updateTime follows only a dispatch that did not throw, and then comes last, on the looked-up folder; a failed lookup throws after the dispatch |
| ContentHandler.UntrackedCreateUploadsThenThrows | alfresco-ai-sync/src/main/java/org/alfresco/events/handler/ContentHandler.java:94-100 | an event with no tracked ancestor still uploads into folder "", then fails at index -1 |
| ContentHandler.DeliverToContentHandler | alfresco-ai-sync/src/main/java/org/alfresco/events/handler/ContentHandler.java:85-132 | delivery never changes the folder list or the flag; an event that is not subscribed or fails the filter over the current list has no effect; one that passes before the flag is queued and never fails; after the flag it issues its live calls and is not queued |
| ContentHandler.QueueBeforeLive | alfresco-ai-sync/src/main/java/org/alfresco/events/handler/ContentHandler.java:101-103 | before the flag is set, delivery issues no call and at most appends the event to the queue, exactly when it passes the filter |
| ContentHandler.LiveNeverQueues | alfresco-ai-sync/src/main/java/org/alfresco/events/handler/ContentHandler.java:93-100 | after the flag is set, delivery never queues and leaves the folder list and flag alone |
| FolderHandler.HandleFolderEvent | alfresco-ai-sync/src/main/java/org/alfresco/events/handler/FolderHandler.java:37-60 | a missing resource is a NullPointerException and a non-node one a ClassCastException; a node never fails; the flag and the queue are untouched |
| FolderHandler.FolderLifecycle | alfresco-ai-sync/src/main/java/org/alfresco/events/handler/FolderHandler.java:41-59 | a creation or update tracks the folder with no call; a deletion issues exactly one cascade delete, and completes even when it fails because the IOException is swallowed; other types change nothing |
| FolderHandler.FolderEventsIgnoreFlag | alfresco-ai-sync/src/main/java/org/alfresco/events/handler/FolderHandler.java:37-60 | folder events are handled the same before and after the initial sync completes |
| FolderHandler.GetEventFilter | alfresco-ai-sync/src/main/java/org/alfresco/events/handler/FolderHandler.java:76-79 | the folder handler filters on the configured sync aspect |
| FolderHandler.DeliverToFolderHandler | alfresco-ai-sync/src/main/java/org/alfresco/events/handler/FolderHandler.java:37-79 | a throwing filter propagates; an event that does not newly gain the aspect, or whose type is not subscribed, changes nothing; otherwise the handler runs |
| FolderHandler.NewSyncFolderIsSeenByContentFilter | alfresco-ai-sync/src/main/java/org/alfresco/events/handler/FolderHandler.java:42-46 | once a folder gains the sync aspect, content events below it pass the content handler's filter |
| App.SequencedAdd | alfresco-ai-sync/src/main/java/org/alfresco/App.java:106-125 | handling two batches of events in turn issues the first batch's calls, then the second's |
| App.DrainCallsAdd | alfresco-ai-sync/src/main/java/org/alfresco/App.java:119-125 | failure isolation: the calls for later drained events do not depend on how earlier ones ended |
| App.ProcessEventQueue | alfresco-ai-sync/src/main/java/org/alfresco/App.java:106-125 | every queued event is submitted once, in queue order, and handled in live mode; the queue ends empty |
| App.ProcessQueuedEvents | alfresco-ai-sync/src/main/java/org/alfresco/App.java:85-99 | an empty queue creates no pool and changes nothing; otherwise the drain runs between pool creation and shutdown |
| App.TouchesAdd | alfresco-ai-sync/src/main/java/org/alfresco/App.java:71-79 | the updateTime calls of two call sequences are the first's followed by the second's |
| App.NoTouchesInUploads | alfresco-ai-sync/src/main/java/org/alfresco/service/AlfrescoClient.java:194-207 | a backfill batch issues no updateTime |
| App.UploadsAreBackfillCalls | alfresco-ai-sync/src/main/java/org/alfresco/service/AlfrescoClient.java:194-224 | a backfill batch issues only backfill uploads |
| App.Published | alfresco-ai-sync/src/main/java/org/alfresco/App.java:77 | the initial sync owes one updateTime per selected folder |
| App.PublishedPerFolder | alfresco-ai-sync/src/main/java/org/alfresco/App.java:72-78 | the i-th owed updateTime marks the i-th folder as published |
| App.SyncOneFolder | alfresco-ai-sync/src/main/java/org/alfresco/App.java:72-78 | one folder's share uploads exactly the rows of the pages its loop fetched, in order, then calls updateTime(id, true); the count is the rows whose upload succeeded |
| App.InitialSyncTraceCalls | alfresco-ai-sync/src/main/java/org/alfresco/App.java:71-79 | the folders' backfill, folder after folder, issues only backfill calls and marks the folders published once each, in folder order |
| App.PerformInitialSync | alfresco-ai-sync/src/main/java/org/alfresco/App.java:71-79 | the folders are backfilled in order, each exactly as `SyncOneFolder` describes; a throwing updateTime ends the sync with that exception right after the first folder it hits; only the trace changes |
| App.Run | alfresco-ai-sync/src/main/java/org/alfresco/App.java:59-65 | a throwing folder search or updateTime escapes run before the flag is set, leaving the queue untouched and creating no pool; otherwise the flag ends set and the queue empty, the backfill is exactly the selected folders', and every backfill call precedes every call made for a queued event, each handled once, in order, in live mode |
| App.BackfillingOnlyQueues | alfresco-ai-sync/src/main/java/org/alfresco/events/handler/ContentHandler.java:101-103 | events arriving during the initial sync issue no call; the queue grows by exactly those passing the filter, in arrival order |
| Documents.ConcatAdd | ai-rag-framework/src/main/java/org/alfresco/ai_framework/ingestion/DocumentSplitter.java:35-50 | joining two part lists is joining each and concatenating |
| Documents.JoinedIsConcat | ai-rag-framework/src/main/java/org/alfresco/ai_framework/ingestion/DocumentSplitter.java:35-50 | joining documents joins their contents |
| Documents.JoinedAdd | ai-rag-framework/src/main/java/org/alfresco/ai_framework/ingestion/DocumentSplitter.java:17-23 | joining the contents of two document lists concatenates the joins |
| DocumentSplitter.LastBreak | ai-rag-framework/src/main/java/org/alfresco/ai_framework/ingestion/DocumentSplitter.java:68-83 | the backward scan finds the rightmost break in the window, or reports that the window holds none |
| DocumentSplitter.FindSplitPoint | ai-rag-framework/src/main/java/org/alfresco/ai_framework/ingestion/DocumentSplitter.java:63-100 | the cut is past the start and within the text, at most 20001 ahead. The final part takes the whole rest; an earlier cut is more than 16000 ahead. The cut goes after the rightmost paragraph break in the window, else the rightmost sentence end, else at 20000 |
| DocumentSplitter.SplitPartCanExceedMax | ai-rag-framework/src/main/java/org/alfresco/ai_framework/ingestion/DocumentSplitter.java:68-71 | 20000 letters followed by a blank line produce a first part of 20001 characters, where the intended search stays within 20000 |
| DocumentSplitter.FindSplitPointIntended | ai-rag-framework/src/main/java/org/alfresco/ai_framework/ingestion/DocumentSplitter.java:63-87 | with the scan starting one before the window's end, no part exceeds 20000 characters |
| DocumentSplitter.SplitContent | ai-rag-framework/src/main/java/org/alfresco/ai_framework/ingestion/DocumentSplitter.java:28-53 | the parts rejoin to the text and are non-empty; each is at most 20001 long, every non-final part is longer than 16000, and the final one is at most 20000 |
| DocumentSplitter.NatToString | ai-rag-framework/src/main/java/org/alfresco/ai_framework/ingestion/DocumentSplitter.java:41 | a part number prints as a non-empty run of decimal digits, one digit exactly below 10 |
| DocumentSplitter.NatToStringInjective | ai-rag-framework/src/main/java/org/alfresco/ai_framework/ingestion/DocumentSplitter.java:41 | different numbers print differently |
| DocumentSplitter.PartIdsDistinct | ai-rag-framework/src/main/java/org/alfresco/ai_framework/ingestion/DocumentSplitter.java:33-49 | distinct parts of a document get distinct ids |
| DocumentSplitter.SplitMetadata | ai-rag-framework/src/main/java/org/alfresco/ai_framework/ingestion/DocumentSplitter.java:55-61 | the part's metadata is the original's plus the original id and the part number, every other key unchanged |
| DocumentSplitter.SplitDocument | ai-rag-framework/src/main/java/org/alfresco/ai_framework/ingestion/DocumentSplitter.java:28-53 | the parts' contents rejoin to the original content, and each part is non-empty and at most 20001 long |
| DocumentSplitter.SplitDocumentPart | ai-rag-framework/src/main/java/org/alfresco/ai_framework/ingestion/DocumentSplitter.java:40-45 | part n (from 1) is named id + "_part" + n, keeps the media, and records the original id and n |
| DocumentSplitter.Replacement | ai-rag-framework/src/main/java/org/alfresco/ai_framework/ingestion/DocumentSplitter.java:18-22 | a document's replacement rejoins to its content and holds no document over 20001 characters |
| DocumentSplitter.FlatMapAdd | ai-rag-framework/src/main/java/org/alfresco/ai_framework/ingestion/DocumentSplitter.java:17-23 | replacing each element in place distributes over concatenation |
| DocumentSplitter.ReplacementsKeepText | ai-rag-framework/src/main/java/org/alfresco/ai_framework/ingestion/DocumentSplitter.java:14-26 | replacing every document by its parts keeps the joined text, and no part exceeds 20001 characters |
| DocumentSplitter.SplitLargeDocuments | ai-rag-framework/src/main/java/org/alfresco/ai_framework/ingestion/DocumentSplitter.java:14-26 | the output's contents rejoin to the input's, and no output document exceeds 20001 characters |
| DocumentSplitter.SplitLargeDocumentsInPlace | ai-rag-framework/src/main/java/org/alfresco/ai_framework/ingestion/DocumentSplitter.java:17-23 | output order follows input order: each document is replaced in place by its parts |
| DocumentSplitter.ShortDocumentsUnchanged | ai-rag-framework/src/main/java/org/alfresco/ai_framework/ingestion/DocumentSplitter.java:12-19 | documents of at most 20000 characters pass through unchanged |
| IngestionService.FilterExpressionInjective | ai-rag-framework/src/main/java/org/alfresco/ai_framework/ingestion/IngestionService.java:86 | without quotes in key and value, the filter names exactly one (key, value) pair |
| IngestionService.FilterExpressionCollides | ai-rag-framework/src/main/java/org/alfresco/ai_framework/ingestion/IngestionService.java:86 | the value is not escaped: a quote in it lets two different pairs give the same filter |
| IngestionService.RemoveIds | ai-rag-framework/src/main/java/org/alfresco/ai_framework/ingestion/IngestionService.java:90 | a store delete removes exactly the chunks whose id is listed |
| IngestionService.DeleteDocuments | ai-rag-framework/src/main/java/org/alfresco/ai_framework/ingestion/IngestionService.java:81-98 | the search always comes first; a delete is issued exactly when it found something, for the found ids; failures are swallowed and only remove nothing; nothing outside the store is added |
| IngestionService.DeleteByDocumentId | ai-rag-framework/src/main/java/org/alfresco/ai_framework/ingestion/IngestionService.java:48-50 | the search filters on the "documentId" key |
| IngestionService.DeleteByFolderId | ai-rag-framework/src/main/java/org/alfresco/ai_framework/ingestion/IngestionService.java:55-57 | the search filters on the "folderId" key |
| IngestionService.AddMetadata | ai-rag-framework/src/main/java/org/alfresco/ai_framework/ingestion/IngestionService.java:70-76 | every chunk carries documentId, folderId and fileName equal to the arguments; ids, contents, media and all other metadata are untouched |
| IngestionService.Ingest | ai-rag-framework/src/main/java/org/alfresco/ai_framework/ingestion/IngestionService.java:33-43 | a failed transform throws and touches nothing; otherwise the search for the document comes first, the add of the tagged chunks last, any delete in between; a stored chunk goes only when the search returned its id and the delete went through |
| IngestionService.IngestUpserts | ai-rag-framework/src/main/java/org/alfresco/ai_framework/ingestion/IngestionService.java:36-40 | after ingest the new chunks are stored and tagged; every chunk the search returned is gone unless re-added; nothing else is new; every stored chunk whose id the search did not return survives |
| IngestionService.IngestKeepsOtherDocuments | ai-rag-framework/src/main/java/org/alfresco/ai_framework/ingestion/IngestionService.java:36-40 | when the search returns only stored chunks of the document and store ids are unique, ingest keeps every chunk of every other document |
| IngestionService.IngestReplacesWhenSearchIsComplete | ai-rag-framework/src/main/java/org/alfresco/ai_framework/ingestion/IngestionService.java:36-40 | when the search returned every old chunk of the document, its chunks afterwards are exactly the new ones |
| IngestionService.IngestSurvivesDeleteFailure | ai-rag-framework/src/main/java/org/alfresco/ai_framework/ingestion/IngestionService.java:84-97 | a failing search or delete is swallowed: ingest completes, keeps every old chunk and adds the new ones |

## Left out

- Concurrency is not modelled: the thread pool, `parallelStream`, the atomic flag and counter, the blocking queue's thread safety, and `awaitTermination`/`shutdownNow`. Everything runs sequentially, and the drain handles events in queue order.
- The event SDK is not part of this model:
  - its classification of node events is the `nodeEvent` field;
  - the handled event types are `Created`, `Updated` and `Deleted`;
  - the order in which it runs the two handlers, and when it calls `getEventFilter`, are not modelled;
  - the SDK is assumed to test a handler's filter before the event type, so an aspect filter that throws on an unsubscribed event still propagates (`FolderHandler.DeliverToFolderHandler`).
  - The content filter is always rebuilt from the current folder list, which matches the Java filter holding a reference to that list.
- A null event, null event data and a null resource all become a missing resource.
- A null primary hierarchy becomes an empty one. That is what ParentFolderFilter does with it. In `handleEvent` (ContentHandler.java:96) and `getSyncFolderId` (ContentHandler.java:155) the same null would be a NullPointerException; those paths are not reachable here only because the filter rejects such an event first.
- A null `getAspectNames()` is outside the model, because `aspects` is a set. In AspectFilter.java:32-33 it would be a NullPointerException.
- Filters.AspectTest: null event data, which throws a NullPointerException in the filter, is not told apart from a null resource, which gives `false`.
- The factories' `requireNonNull` checks on the filter arguments are left out. The configured arguments are never null.
- Dates are integers. Parsing and formatting with `yyyy-MM-dd'T'HH:mm:ss.SSSX`, `Instant.now`, the time zone and `System.currentTimeMillis` are left out. The current time is a parameter.
- DocumentSplitter.SplitMetadata: the `split_timestamp` entry is dropped because it is a clock reading.
- The search API, the nodes API and the AI client's HTTP calls are oracles or trace actions:
  - `processDocument` (both forms), `deleteDocument` and `deleteDocumentsFromFolder` are the actions `Upload`, `BackfillUpload`, `DeleteDoc` and `DeleteFolderDocs`;
  - the three-argument `processDocument` and `deleteDocumentsFromFolder` are not part of this model beyond those actions.
- A row's upload either fails or not, the same way every time it is fetched (`failing` is a set of ids).
- App.Run: a backfill search (`executeSearch` or `getBody`) that throws inside `synchronizeDocuments` is not modelled; the page oracle always answers. Such an exception would escape `run` like a throwing `updateTime`, before the flag is set.
- App.PerformInitialSync: the same; only a throwing `updateTime(id, true)` ends the sync early. Any of `getFoldersToSync`'s searches throwing is one case (`search` is None), not told apart by which search failed.
- FolderHandler.HandleFolderEvent: has no parameter for a failing cascade delete, because its IOException is caught and logged and the state and outcome are the same either way.
- AlfrescoClient.SynchronizeDocuments requires a folder with an "updated" watermark. Without one the Java code throws a NullPointerException when formatting the date, but folders reach the loop only through the selection, which demands a watermark.
- AlfrescoClient.SynchronizeDocuments requires the page oracle to stop eventually (`Stops`). Against a faithful repository it never does; see `BackfillNeverAdvances`.
- `Character.isWhitespace` is a fixed set of characters. Strings are sequences of `char`, not UTF-16 code units, so a surrogate pair is one character here.
- `maxLength * 0.8` is the integer 16000.
- The vector store is a list of chunks:
  - its search is an oracle that may return any chunks at all, including chunks of other documents or chunks not in the store; `IngestKeepsOtherDocuments` is the one lemma that needs the search to honour its filter, and it says so in its requires;
  - how it interprets the filter expression is not modelled;
  - a failing delete removes nothing;
  - a failing add is not modelled.
- `TikaDocumentReader` and `TokenTextSplitter` are not part of this model. Their output, or their failure, is a parameter of `Ingest`.
- Logging is left out.
- Also not part of this model, because they are web, chat, UI or configuration wrappers:
  - the AI client's multipart plumbing;
  - the controllers and chat services;
  - the older `src/` copy of IngestionService;
  - the UI.

## Findings

| source | as written | input that shows it | evidently intended | confidence | as-written member | corrected member |
|---|---|---|---|---|---|---|
| alfresco-ai-sync/src/main/java/org/alfresco/events/handler/ContentHandler.java:60-62 | `removeFolder` adds the id to the list | removing "f" from ["f"] gives ["f", "f"] | the id leaves the list | high, not executed | ContentHandler.RemoveFolderKeepsFolder | ContentHandler.RemoveFolderIntended |
| alfresco-ai-sync/src/main/java/org/alfresco/events/handler/ContentHandler.java:96-100 | the position of the first tracked ancestor in the hierarchy is used as an index into the folder list | hierarchy ["root", "f"] with list ["f"] throws IndexOutOfBounds; with list ["f", "g"] it refreshes "g"; an untracked node indexes -1 | refresh the first tracked ancestor itself | high, not executed | ContentHandler.UpdateTimeTargetUsesWrongList | ContentHandler.UpdateTimeTargetIntended |
| alfresco-ai-sync/src/main/java/org/alfresco/events/filter/AspectFilter.java:30-31 | both resources are cast to NodeResource without a check | a node gaining "ai:sync" whose prior resource is not a node throws ClassCastException | a non-node resource counts as not carrying the aspect | medium, not executed | Filters.AspectTestThrowsOnForeignPrior | Filters.AspectTestFailClosed |
| alfresco-ai-sync/src/main/java/org/alfresco/service/AlfrescoClient.java:255 | every backfill request has skipCount 0 | a folder with maxItems + 1 matching documents: the repository answers the same first page with "more items" forever | skipCount advances by maxItems | high, not executed | AlfrescoClient.BackfillNeverAdvances | AlfrescoClient.PagedEntriesIntended |
| alfresco-ai-sync/src/main/java/org/alfresco/service/AlfrescoClient.java:115 | a folder without an "updated" watermark is never selected | a sync folder holding one document and no properties | a never-synced folder is backfilled | low, not executed | AlfrescoClient.NeverSyncedFolderIsSkipped | AlfrescoClient.FoldersToSyncIntended |
| ai-rag-framework/src/main/java/org/alfresco/ai_framework/ingestion/DocumentSplitter.java:68-71 | the paragraph scan starts at endIndex and returns endIndex + 1 | 20000 letters followed by "\n\n" give a first part of 20001 characters | parts are at most MAX_LENGTH long | high, not executed | DocumentSplitter.SplitPartCanExceedMax | DocumentSplitter.FindSplitPointIntended |
