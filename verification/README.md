# Safir, modelled and verified in Dafny

Safir is a library for writing web services. This project models its parts with the most
intricate logic and proves what they promise, for all inputs and all runs. Run
`dafny verify dfyconfig.toml` to check everything.

| part of Safir | Dafny files |
|---|---|
| `AsyncMultiQueue`, a queue with many readers and writers | `MultiQueueModel.dfy` (every interleaving, as a step system), `MultiQueueProgress.dfy` (what iterators get done), `MultiQueue.dfy` (the objects) |
| Pagination by keyset cursors, their text, and the `Link` header | `Pagination.dfy`, `CursorText.dfy`, `LinkHeader.dfy`, `LinkPattern.dfy` |
| The Kubernetes mock with its event streams | `KubernetesModel.dfy` (runs and replay), `KubernetesLabels.dfy` (selectors), `KubernetesWatch.dfy` (watches on the queues behind the streams), `Kubernetes.dfy` (jobs, and the object), `KubernetesJobs.dfy` (jobs and the labels of their pods) |
| UWS jobs: service, job store, workers, arq queue | `UwsModel.dfy`, `UwsProtocol.dfy` (every interleaving of requests), `UwsFrame.dfy` (jobs among others), `UwsCalls.dfy` (each call by itself), `UwsPolling.dfy`, `Uws.dfy` (the objects) |
| The Kafka event manager, a circuit breaker with a clock | `EventManagerModel.dfy`, `EventManagerFailures.dfy`, `EventManager.dfy` |
| Assertions on published events | `PublishedEvents.dfy`, `PublishedDifference.dfy` |
| Test data with wildcards | `TestData.dfy` |
| Slack messages | `BlockKit.dfy` |
| Durations such as `4h 3minutes` | `Duration.dfy`, `DurationUnits.dfy` |

`Wrappers.dfy`, `Text.dfy`, `TextLines.dfy` and `Decimal.dfy` hold what several parts share. Where the source
changes objects step by step, a class here does so too, and each of its methods is proved
to do what a function on values says; the theorems are about these functions.

Concurrency is modelled by steps. A step of the multi-queue is the code between two points
where asyncio can switch tasks. A step of the UWS protocol is one request to the job store or
the queue, so that service calls, workers and time-outs interleave at every request. Times are
whole microseconds, or seconds as exact numbers in the polling loop; the current time is a
parameter of every operation that reads the clock.

Some properties that one might expect fail, and the code is what is modelled. For each there
is a proof of exactly when they hold, or of what goes wrong:

- `start` reads the job, sends a message and records it in three requests. More than one
  message is sent, or is going to be, if and only if two starts of the job have both found it
  PENDING and not yet recorded a message (`UwsProtocol.OneMessageIff`, `RaceSendsTwo`).
- Metadata updates send back the field that they do not change, and compare with what they have
  read. An action puts off the destruction time exactly if it sends a later one than is stored
  (`UwsProtocol.DestructionRaisedIff`). Overlapping updates can do that, or undo one another's
  duration; for two of them it is said when (`OverlappingUpdates`, `OverlappingDestructions`,
  `OverlappingUpdatesOfDuration`).
- An aborted job need not stay aborted: a start that is under way, or a late note of a worker,
  gives it another phase (`UwsProtocol.StartUndoesAbort`, `LateNoteUndoesPhase`). It is said
  which actions do so, and that the phase stays without them (`PhaseLeftIff`, `TerminalStays`).
- An execution duration of zero is sent as none, and so means no limit (`UwsProtocol.UnlimitedIff`).
- Recording a cancelled message fails with a `TypeError`, as a cancellation is neither an
  `Exception` nor a list (`UwsProtocol.WorkerReports`).
- `prev_url` is documented to be `None` if there are no further entries. But a forward page has
  a `prev_cursor` whenever it was asked for with a cursor
  (`Pagination.ForwardPrevCursor`, `ForwardPrevCursorFails`).
- A second `close` appends a second end mark, which `qsize` counts
  (`MultiQueueModel.QSizeCounts`).
- Deleting a namespace removes its objects without events (`KubernetesModel.DropNamespaceHides`,
  `StaleWatchIff`). A watch with a selector is not told of an object that a replacement takes out
  of the selector (`KubernetesModel.WatchKeepsUpIff`).
- A deletion of a job that fails may have deleted its pods already (`Kubernetes.FailedDeleteJob`),
  and a creation that fails, such as that of a job whose template has no labels, may have stored
  the job already (`Kubernetes.FailedCreateJob`).
- In any order, a wildcard may take the payload that a later expectation needs
  (`PublishedEvents.FindsMatchingsIff`).
- Truncation can cut an escaped character. It does not if and only if the part in front of the
  cut leaves no ampersand open (`BlockKit.EndCutIsClean`, `StartCutIsClean`). At the start it
  fails for several lines if the room is less than 17 (`BlockKit.TruncateAtStart`).
- The documentation of durations asks for one or more numbers; the code also accepts none
  (`Duration.BlankIsZero`).
- `MockArqQueue.set_in_progress` means to remove an earlier result but looks for the message
  in the dictionary of queues, so the result stays (`Uws.MockArqQueue.SetInProgress`).

## Model

| member | source | states |
|---|---|---|
| `MultiQueueModel.RunKeepsInv` | src/safir/asyncio/_multiqueue.py:83-170 | In every interleaving of put, close, clear and reader steps: items precede end marks in each list, cleared lists are finished, what each reader has yielded fits its position, and live readers of the current list are registered |
| `MultiQueueModel.AgreesRun` | src/safir/asyncio/_multiqueue.py:120-170 | After any actions the lists hold exactly the items that the writers' history alone prescribes, readers or not |
| `MultiQueueModel.DeliversItsGeneration` | src/safir/asyncio/_multiqueue.py:94-118 | Whatever comes before and after it attaches, a reader has yielded a prefix of the items of the list it attached to, from its start position; if it has returned, all of them, and that list was closed or cleared |
| `MultiQueueModel.ClearedIsFrozen` | src/safir/asyncio/_multiqueue.py:120-135 | The items of a cleared list stay what they were over every further run of writers and readers |
| `MultiQueueModel.NoLostWakeup` | src/safir/asyncio/_multiqueue.py:97-115 | In every reachable state a reader waiting on an unset trigger has yielded everything there is, its list is current and not closed, and the next put, close or clear sets its trigger |
| `MultiQueueModel.ReturnsWhenFinished` | src/safir/asyncio/_multiqueue.py:94-118 | Once its list is closed or cleared, a reader that is not given up yields one remaining item per run and returns on the run after the last, no sooner and no later, whatever else happens |
| `MultiQueueModel.QSizeCounts` | src/safir/asyncio/_multiqueue.py:172-177 | `qsize` is the number of current items plus one for each `close` after the first; so it counts items if and only if there was at most one `close` |
| `MultiQueueProgress.YieldsNextItem` | src/safir/asyncio/_multiqueue.py:94-118 | Whether its list is open or not, an iterator that has not stopped yields exactly the next item due when it runs; with none due it ends on a finished list and waits on an open one |
| `MultiQueueProgress.RunsDeliver` | src/safir/asyncio/_multiqueue.py:94-118 | In every interleaving, n runs of an iterator that is not given up have delivered at least the next n of the items that were due in the beginning, or all of them |
| `MultiQueueProgress.RunKeepsRegistered` | src/safir/asyncio/_multiqueue.py:83-135 | In every interleaving only iterators of the current list are registered, each once, and none that has ended or timed out |
| `MultiQueueProgress.GivenUp` | src/safir/asyncio/_multiqueue.py:104-118 | An iterator that times out or is closed never yields again and is not registered any more, unless it was closed before it ever ran; the others stay registered |
| `MultiQueue.QueueIterator.RunBody` | src/safir/asyncio/_multiqueue.py:94-118 | The loop of the generator, from one suspension point to the next, does what one model step does to position, trigger and output |
| `MultiQueue.QueueIterator.Resume` | src/safir/asyncio/_multiqueue.py:94-118 | A turn of an iterator is the model's resume step on the whole queue, including the removal of its trigger when it ends |
| `MultiQueue.QueueIterator.TimeOut` | src/safir/asyncio/_multiqueue.py:107-118 | A time-out ends a waiting iterator and unregisters it |
| `MultiQueue.QueueIterator.Abandon` | src/safir/asyncio/_multiqueue.py:94-118 | Closing a started generator unregisters it; one that never ran stays registered |
| `MultiQueue.AsyncMultiQueue.AiterFrom` | src/safir/asyncio/_multiqueue.py:83-118 | A new iterator captures the current list and is registered last |
| `MultiQueue.AsyncMultiQueue.Put` | src/safir/asyncio/_multiqueue.py:151-170 | Appends the item and sets exactly the registered triggers, or refuses if the list is finished and then changes nothing |
| `MultiQueue.AsyncMultiQueue.Close` | src/safir/asyncio/_multiqueue.py:137-149 | Always appends an end mark and sets the registered triggers |
| `MultiQueue.AsyncMultiQueue.Clear` | src/safir/asyncio/_multiqueue.py:120-135 | Finishes the old list unless it is finished, wakes its readers, and starts an empty list without registrations |
| `MultiQueue.AsyncMultiQueue.Size` | src/safir/asyncio/_multiqueue.py:172-177 | `qsize` of the current list |
| `MultiQueue.AsyncMultiQueue.Unregister` | src/safir/asyncio/_multiqueue.py:116-116 | Removes the triggers of one iterator and keeps the order of the others |
| `Pagination.SortedIsSorted` | src/safir/database/_pagination.py:239-246 | The order puts newer rows first, then higher ids; the sorted rows are the rows of the table |
| `Pagination.CursorSplits` | src/safir/database/_pagination.py:248-271 | A cursor and its inverse share out every table: the rows in front of it and the rows from it on, in order |
| `Pagination.FullQuery` | src/safir/database/_pagination.py:563-601 | All rows in order, without cursors |
| `Pagination.RunQuery` | src/safir/database/_pagination.py:638-694 | Filter, order, one row more than the limit and reversal give the first or last rows that the cursor admits, and the cursors around them |
| `Pagination.PaginatedQuery` | src/safir/database/_pagination.py:603-694 | So the page is a slice of the sorted table just after or just before the cursor, with its neighbouring cursors |
| `Pagination.Query` | src/safir/database/_pagination.py:467-562 | Without cursor and limit, or with the limit 0 and no cursor, all rows in order and no cursors; otherwise the page. It has as many rows as the cursor admits, or as the limit allows |
| `Pagination.PageSize` | src/safir/database/_pagination.py:638-694 | A page shows all rows that the cursor admits if there is no limit or it is 0, and otherwise these or exactly as many as the limit |
| `Pagination.ForwardContents` | src/safir/database/_pagination.py:672-694 | A page not reached by a previous cursor shows the first rows admitted; its next cursor is the row behind them, if any, and its previous cursor the one it was asked for |
| `Pagination.BackwardContents` | src/safir/database/_pagination.py:672-694 | A page reached by a previous cursor shows the last rows admitted; its previous cursor is its own first row if any row precedes it |
| `Pagination.NextThenPrev` | src/safir/database/_pagination.py:638-694 | From every page that has a next cursor, following `next` and then `prev` shows the same entries and the same next cursor; from a page reached backward, the very same page |
| `Pagination.PrevThenNext` | src/safir/database/_pagination.py:638-694 | From every page that has a previous cursor, following `prev` and then `next` shows the same entries and the same previous cursor; from a page reached forward, the very same page |
| `Pagination.ForwardPrevCursor` | src/safir/database/_pagination.py:660-694 | On a forward page `prev` tells whether rows precede the page if and only if there was no cursor or some row does precede; it is set whenever there was a cursor |
| `Pagination.ForwardPrevCursorFails` | src/safir/database/_pagination.py:660-694 | On any table a forward cursor with nothing before it gives a page whose `prev` leads to an empty page |
| `Pagination.BackwardPrevCursor` | src/safir/database/_pagination.py:660-694 | On a backward page `prev` is set if and only if rows precede the page |
| `Pagination.NextRest` | src/safir/database/_pagination.py:638-694 | The rows from a cursor on are the entries of its page followed by the rows from its `next` cursor on |
| `Pagination.WalkIsSorted` | src/safir/database/_pagination.py:638-694 | A forward walk shows rows in strictly descending order even if the table changes arbitrarily between fetches |
| `Pagination.WalkShowsExactlyOnce` | src/safir/database/_pagination.py:638-694 | On a table that changes arbitrarily between fetches no row is shown twice, and a finished walk has shown every row that was there throughout exactly once |
| `Pagination.WalkFixedTable` | src/safir/database/_pagination.py:638-694 | On a fixed table the walk ends after exactly the expected number of pages, all but the last are full, and together they are the full sorted query |
| `Pagination.WalkBackShowsExactlyOnce` | src/safir/database/_pagination.py:638-694 | A backward walk over a table that changes arbitrarily between fetches shows no row twice, and a finished one has shown every row in front of its cursor that was there throughout exactly once |
| `CursorText.CursorRoundTrip` | src/safir/database/_pagination.py:223-235 | Every cursor is read back from its text, for all times in whole microseconds, negative ones included |
| `CursorText.TimeRoundTrip` | src/safir/database/_pagination.py:274-284 | The decimal notation of a timestamp is read back exactly |
| `CursorText.OneSeparator` | src/safir/database/_pagination.py:223-235 | A text with no or with several `_` is refused |
| `CursorText.PrintedForm` | src/safir/database/_pagination.py:273-284 | The form of the text, in two instances: direction, seconds with the fraction only where it matters, and id |
| `LinkHeader.FromHeader` | src/safir/http/_link.py:32-61 | The loop over the comma-separated elements records each matching link, later ones over earlier ones |
| `LinkHeader.MatchesQuotedLink` | src/safir/http/_link.py:7-8 | Every text that the pattern with a quoted relation describes is matched with that target and that relation |
| `LinkPattern.MatchIff` | src/safir/http/_link.py:7-13 | An element is matched with a target and a relation if and only if it has the form with a quoted relation or the one with a token |
| `LinkPattern.RecordSays` | src/safir/http/_link.py:48-61 | Each link goes to the URL of its relation, `previous` to that of `prev`, and other relations and elements that are no links to none |
| `LinkHeader.HeaderRoundTrip` | src/safir/database/_pagination.py:398-419 | Parsing the header of a page gives back its first, next and prev URLs if and only if each is nonempty and without `,` and `>` |
| `KubernetesModel.FailuresChangeNothing` | src/safir/testing/kubernetes/_mock.py:3305-3331 | Exactly when storing, deleting and the namespace operations raise 404 or 409, and that a failure leaves store and streams as they were |
| `KubernetesModel.ReplayGivesStore` | src/safir/testing/kubernetes/_mock.py:3310-3331 | Over every run the i-th event of a stream carries version i unless it deletes, the store is part of the replay of the stream, and equal to it if the namespace was never deleted |
| `KubernetesModel.ReplayGivesNamespaces` | src/safir/testing/kubernetes/_mock.py:1526-1589 | Over every run, deletions included, the namespace stream replays to exactly the namespaces created explicitly that still exist |
| `KubernetesModel.DropNamespaceHides` | src/safir/testing/kubernetes/_mock.py:1559-1589 | Deleting a namespace breaks the agreement of a kind's store and stream if and only if objects of that kind were in it |
| `KubernetesModel.WatchDelivers` | src/safir/testing/kubernetes/_mock.py:304-325 | A watch delivers, in order and once each, exactly the events whose name and labels match |
| `KubernetesModel.WatchOneName` | src/safir/testing/kubernetes/_mock.py:304-325 | A watch on one name keeps that name as up to date as the whole stream would, and touches no other |
| `KubernetesModel.ListThenWatch` | src/safir/testing/kubernetes/_mock.py:171-325 | Listing, and then watching from any version since the namespace was deleted last, gives the store now, also when events that the list already reflects are delivered again |
| `KubernetesModel.FreshWatch` | src/safir/testing/kubernetes/_mock.py:171-325 | From any state, whatever was deleted before, a watch from the end of the stream keeps a list up to date as long as the namespace is not deleted |
| `KubernetesModel.WatchKeepsUpIff` | src/safir/testing/kubernetes/_mock.py:95-129 | A watch with a label selector keeps up with the list of that selector over a run if and only if no replacement takes a listed object out of the selector |
| `KubernetesModel.ReplayIsIdempotent` | src/safir/testing/kubernetes/_mock.py:171-325 | Events that have been applied can be applied again without any effect |
| `KubernetesModel.StaleWatchIff` | src/safir/testing/kubernetes/_mock.py:1559-1589 | A watch over past events leaves a list as it is if and only if no name it touches has vanished with its namespace |
| `KubernetesLabels.CheckLabelsIff` | src/safir/testing/kubernetes/_mock.py:105-133 | An object matches a selector if and only if it has each of its labels with its value |
| `KubernetesLabels.MatchingIff` | src/safir/testing/kubernetes/_mock.py:312-325 | A watch delivers an event if and only if it is in the stream, about the wanted name, and about an object with every wanted label and its value |
| `KubernetesLabels.ViewIff` | src/safir/testing/kubernetes/_mock.py:3159-3212 | A list with a selector shows an object if and only if it has every wanted label with its value |
| `KubernetesLabels.StoreSays` | src/safir/testing/kubernetes/_mock.py:3276-3331 | What is stored and announced: the object with the number of its event as version, as added or modified; everything else stays as it was |
| `KubernetesLabels.DeleteSays` | src/safir/testing/kubernetes/_mock.py:3026-3064 | A deletion removes the object and announces it as it was; everything else stays as it was |
| `KubernetesWatch.RunKeepsInv` | src/safir/testing/kubernetes/_mock.py:168-204 | In every interleaving of calls and watches, the queue behind a stream holds exactly the events of the stream, and its size is their number |
| `KubernetesWatch.WatchFollows` | src/safir/testing/kubernetes/_mock.py:260-326 | In every interleaving, a watch has delivered a first part of the matching events from its version on, and all of them whenever it waits on an unset trigger |
| `KubernetesWatch.ClientSeesPast` | src/safir/testing/kubernetes/_mock.py:260-326 | A client that lists and then watches from there, at once or later, always sees the list as it was when just those events had happened, and the present list whenever its watch is idle, unless the namespace is deleted or a replacement takes an object out of its selector |
| `KubernetesWatch.CatchesUp` | src/safir/testing/kubernetes/_mock.py:260-326 | From any version since the namespace was deleted last, a client without a selector has the present list whenever its watch is idle |
| `Kubernetes.DeletePodsEffect` | src/safir/testing/kubernetes/_mock.py:1363-1416 | Deleting the listed pods removes exactly these with one event each, in order |
| `Kubernetes.DeleteJobEffect` | src/safir/testing/kubernetes/_mock.py:1363-1416 | A foreground or background deletion removes the job and its pods and nothing else, with one event each |
| `Kubernetes.DeleteJobFailsIff` | src/safir/testing/kubernetes/_mock.py:1363-1416 | The deletion of a job fails if and only if there is no such job or the policy is invalid |
| `Kubernetes.FailedDeleteJob` | src/safir/testing/kubernetes/_mock.py:1363-1416 | A deletion that fails, for whatever reason, has changed nothing if and only if pods were orphaned or there were none |
| `Kubernetes.CreateJobSucceedsIff` | src/safir/testing/kubernetes/_mock.py:1301-1361 | The creation of a job succeeds if and only if the job is new, its template has labels, and the name of its pod is free |
| `Kubernetes.FailedCreateJob` | src/safir/testing/kubernetes/_mock.py:1301-1361 | A creation that fails has changed nothing if and only if the job existed before; otherwise it leaves the job without a pod |
| `Kubernetes.CreateThenDeleteJob` | src/safir/testing/kubernetes/_mock.py:1301-1416 | Creating and deleting a job gives back the objects there were if and only if no pod had its label before |
| `Kubernetes.JobPodsIff` | src/safir/testing/kubernetes/_mock.py:1405-1410 | The pods of a job are those whose `job-name` label is the name of the job, and no others |
| `KubernetesJobs.PodLeft` | src/safir/testing/kubernetes/_mock.py:1363-1416 | After the deletion of a job a pod is left, as it was, if and only if the pods are orphaned or it belongs to another job or to none |
| `KubernetesJobs.PodEvents` | src/safir/testing/kubernetes/_mock.py:1363-1416 | Watchers of the pods hear of no deletion if the pods are orphaned, and otherwise of one for each pod of the job |
| `KubernetesJobs.JobsLeft` | src/safir/testing/kubernetes/_mock.py:1363-1416 | All other jobs stay, and the job itself stays exactly if the policy is invalid |
| `KubernetesJobs.CreatedWithPod` | src/safir/testing/kubernetes/_mock.py:1301-1361 | A created job comes with a pod that has all labels of the template and the name of the job in one more; both are announced |
| `Kubernetes.MockKubernetesApi.StoreObject` | src/safir/testing/kubernetes/_mock.py:3276-3331 | The nested dictionaries and event streams change as the model's store operation says |
| `Kubernetes.MockKubernetesApi.DeleteObject` | src/safir/testing/kubernetes/_mock.py:3026-3064 | They change as the model's delete operation says |
| `Kubernetes.MockKubernetesApi.ListObjects` | src/safir/testing/kubernetes/_mock.py:3159-3212 | Returns exactly the names of the objects that have the wanted name and every wanted label with its value, each once |
| `Kubernetes.MockKubernetesApi.Watch` | src/safir/testing/kubernetes/_mock.py:260-326 | The filter loop delivers, in order, exactly the events from the given position on, or from the end, whose object has the wanted name and every wanted label with its value |
| `Kubernetes.MockKubernetesApi.NewNamespace` | src/safir/testing/kubernetes/_mock.py:1526-1557 | Refuses a namespace that exists, implicitly or not, and stores it otherwise |
| `Kubernetes.MockKubernetesApi.DropNamespace` | src/safir/testing/kubernetes/_mock.py:1559-1589 | Removes the namespace with its objects and emits at most its own event |
| `Kubernetes.MockKubernetesApi.CreateNamespacedJob` | src/safir/testing/kubernetes/_mock.py:1301-1361 | Stores the job and its pod in the order of the source, with the states it leaves when it fails halfway |
| `Kubernetes.MockKubernetesApi.DeleteNamespacedJob` | src/safir/testing/kubernetes/_mock.py:1363-1416 | Lists exactly the pods whose label names this job, deletes them unless they are orphaned, and then the job |
| `UwsModel.RequestsKeepOk` | src/safir/testing/uws/_mocks.py:85-203 | In every interleaving of whatever store requests: PENDING means untouched, EXECUTING has a start time, COMPLETED and ERROR an end time, ERROR an error, an ABORTED job that started an end time, and no other phase occurs |
| `UwsModel.ServeChangesOne` | src/safir/testing/uws/_mocks.py:85-203 | A request changes no job but the one it names, so never one of another user or service |
| `UwsModel.FinishInFour` | src/safir/uws/_service.py:79-188 | A service call that need not wait makes at most four requests |
| `UwsModel.FinishIsSteps` | src/safir/uws/_service.py:79-188 | A call without interruption is one of the interleavings |
| `UwsProtocol.AtMostOneMessage` | src/safir/uws/_service.py:482-497 | If no two starts of a job are past their read at the same time, whatever else overlaps, at most one message is ever sent for it and its message id names that one |
| `UwsProtocol.OneMessageIff` | src/safir/uws/_service.py:482-497 | In every run, two starts of a job have been past their read at the same time if and only if more than one message was sent for it or is going to be sent by a start that has found it PENDING |
| `UwsProtocol.OneSentIff` | src/safir/uws/_service.py:482-497 | Once all those starts have sent theirs, at most one message was sent if and only if no two starts have raced |
| `UwsProtocol.RaceSendsTwo` | src/safir/uws/_service.py:482-497 | From the state in which the first race begins, one request of each of the two starts is enough for a second message |
| `UwsProtocol.AloneNeverRaces` | src/safir/uws/_service.py:482-497 | Starts that only begin when no other start of the job is under way never race |
| `UwsProtocol.MessageNeverChanges` | src/safir/uws/_service.py:482-497 | If no starts have raced, a message id, once set, stays as long as the job exists |
| `UwsProtocol.SecondMessageIff` | src/safir/uws/_service.py:482-497 | When no starts have raced and a message was sent, one more start alone sends a second one if and only if the job is still PENDING, and then a first start has sent its message but not recorded it |
| `UwsProtocol.OverlappingStarts` | src/safir/uws/_service.py:482-497 | For every PENDING job: when a second start begins and reads after the first has sent its message and before it records it, and then sends its own, there are two |
| `UwsProtocol.OverlappingReads` | src/safir/uws/_service.py:482-497 | For every PENDING job: when two starts both read it before either sends, and then both send, there are two |
| `UwsProtocol.DestructionNeverIncreases` | src/safir/uws/_service.py:528-549 | Without a validator, and if the metadata updates of a job do not overlap, its destruction time never increases, whatever else interleaves |
| `UwsProtocol.OverlappingUpdates` | src/safir/uws/_service.py:580-601 | When they do overlap, an update of the duration restores the destruction time that it has read, and so puts it off if and only if the other update has brought it forward |
| `UwsProtocol.OverlappingDestructions` | src/safir/uws/_service.py:528-549 | Without a validator, of two overlapping updates of the destruction time the one that reads first and sends last puts it off if and only if the other has brought it forward further |
| `UwsProtocol.DestructionRaisedIff` | src/safir/uws/_service.py:528-549 | In any state, with any validator, an action puts off the destruction time of a job if and only if it sends a metadata update for this job with a later time than the stored one |
| `UwsProtocol.OverlappingUpdatesOfDuration` | src/safir/uws/_service.py:528-549 | An update of the destruction time restores the duration that it has read, and undoes an update of it if and only if that has sent anything else |
| `UwsProtocol.RunKeepsWorld` | src/safir/uws/_service.py:580-601 | In every interleaving and with any validator the execution duration is unlimited or at most the configured one, in whole seconds |
| `UwsProtocol.UnlimitedIff` | src/safir/uws/_models.py:610-625 | A change of the duration lifts the limit if and only if none or zero is wanted, and otherwise stores the wanted time in whole seconds |
| `UwsProtocol.SyncStepIff` | src/safir/uws/_service.py:434-455 | `run_sync` returns a value if and only if its last read finds the job COMPLETED, without errors, with this first result; so never for a job in ERROR |
| `UwsProtocol.SyncResultWasRead` | src/safir/uws/_service.py:428-455 | Every value that a synchronous call has returned in any interleaving was read like this at some step of that call |
| `UwsProtocol.WorkerReports` | src/safir/uws/_workers.py:217-276 | After the notes of a worker have been dealt with, the job says how its work ended, with its results or its one annotated error; only after a cancellation it stays EXECUTING and the recording fails |
| `UwsProtocol.NewJobStarts` | src/safir/uws/_service.py:119-159 | Starting a new job sends one message and queues the job with its id |
| `UwsProtocol.LifeOfAJob` | src/safir/uws/_service.py:389-455 | Created, started, worked on, recorded: in the end a synchronous call returns the first result or raises the error of the worker |
| `UwsProtocol.PhaseLeftIff` | src/safir/testing/uws/_mocks.py:179-203 | An action takes a job out of ABORTED, COMPLETED or ERROR if and only if it is the last request of a start, a report of a worker with another phase, or the last request of a call that sends one |
| `UwsProtocol.TerminalStays` | src/safir/uws/_service.py:79-109 | A job in such a phase keeps it as long as it exists, over every further run, if no start of it is past its first read, no outcome of it is being recorded or will be, and no worker reports another phase |
| `UwsProtocol.StartUndoesAbort` | src/safir/uws/_service.py:482-497 | Aborting a PENDING job completely while a start of it is between its requests has no effect: the start puts it into the queue |
| `UwsProtocol.LateNoteUndoesPhase` | src/safir/uws/_workers.py:144-150 | A note of the start of the work that is dealt with late makes a job execute, whatever it was |
| `UwsProtocol.RecordAfterAbort` | src/safir/uws/_service.py:99-109 | When the abort of an executing job is followed by the record of its cancelled work, that record fails and the job stays ABORTED with an end time |
| `UwsFrame.RunKeepsNamesOk` | safir-arq/src/safir/arq/_queue.py:292-331 | In every interleaving, each job, each call and each entry of the queue names only messages that were sent for its own job |
| `UwsFrame.OthersLeaveAlone` | src/safir/testing/uws/_mocks.py:85-203 | Over every run of actions about other jobs, the record of a job, its messages with their outcomes, and the calls on it stay as they are |
| `UwsFrame.StepLeads` | src/safir/uws/_service.py:79-188 | A request of a call, followed by whatever happens to other jobs, leaves its job, the call and its messages as the request alone would |
| `UwsFrame.LifeAmongOthers` | src/safir/uws/_service.py:389-455 | Created, started, worked on and recorded, with anything about other jobs between any two of its requests, a job ends with its own message, in the phase of its own outcome and with its results or error |
| `UwsCalls.AbortJobStops` | safir-arq/src/safir/arq/_queue.py:292-331 | A waiting message is dropped, one in progress is cancelled, and nothing becomes of one that is over or unknown |
| `UwsCalls.AbortSays` | src/safir/uws/_service.py:79-109 | An abort stops the message of an active job, marks it as aborted, with the time if it had started, and leaves everything else alone |
| `UwsCalls.DeleteSays` | src/safir/uws/_service.py:161-188 | A deletion stops the message of an active job and removes exactly this job |
| `UwsCalls.StoppedNeverRuns` | src/safir/uws/_service.py:104-108 | The message of a job that was aborted or deleted while it was waiting is in the queue of no further run |
| `UwsCalls.CreateSays` | src/safir/uws/_service.py:119-159 | The fields of a new job, and that nothing else changes |
| `UwsCalls.StartSays` | src/safir/uws/_service.py:482-497 | Among jobs that can exist exactly the PENDING ones can be started; then one message is sent, waits, and is recorded |
| `UwsCalls.DestructionSays` | src/safir/uws/_service.py:528-549 | The new destruction time is what the validator says, or without one the wanted time but no later one than before; the same time changes nothing |
| `UwsCalls.WantedDurationSays` | src/safir/uws/_service.py:584-588 | The validator is asked first; then the wanted time stays as it is if it is none, zero or not above the configured one, and is the configured one otherwise |
| `UwsCalls.DurationSays` | src/safir/uws/_service.py:580-601 | The duration that the job has already changes nothing; none and zero lift the limit, and any other is stored in whole seconds |
| `UwsCalls.WholeSecondsSays` | src/safir/uws/_models.py:610-625 | Whole seconds are the multiple of a second nearest to the time toward zero |
| `UwsCalls.UpdatedLeaves` | src/safir/testing/uws/_mocks.py:163-203 | Which fields each update of a job changes, and which it leaves alone |
| `UwsCalls.ErrorSays` | src/safir/uws/_workers.py:162-214 | The recorded error is the one of the task, wrapped by the worker or not, and for any other exception a general one with its name and text |
| `UwsCalls.RecordSays` | src/safir/uws/_workers.py:217-276 | What recording does to the job for each outcome, and that without a message it does nothing |
| `UwsCalls.SyncStarts` | src/safir/uws/_service.py:428-434 | A synchronous call sends one message for a job of its own and records it before it looks at the job |
| `UwsCalls.SyncOutcomeSays` | src/safir/uws/_service.py:441-455 | Exactly when a synchronous call times out, raises the first error, finds no results, or returns the first result |
| `UwsCalls.SyncWaits` | src/safir/uws/_service.py:244-260 | A call that may wait goes on polling while its job is active, and otherwise ends, after one more read if it has polled |
| `UwsCalls.PollsWhileActive` | src/safir/uws/_service.py:654-665 | Whatever else happens, only the clock ends the polling of a job that stays active |
| `UwsCalls.TimeOutReadsAgain` | src/safir/uws/_service.py:663-665 | When its time is up a call reads the job once more and goes by that |
| `UwsCalls.GoneMeanwhile` | src/safir/testing/uws/_mocks.py:163-178 | When the job has been deleted between two requests the call says that it is unknown and changes nothing |
| `UwsPolling.NextDelay` | src/safir/uws/_service.py:654-661 | The polling delay grows by half each time up to five seconds: min(0.1 * 1.5^k, 5) |
| `UwsPolling.WaitForJob` | src/safir/uws/_service.py:654-665 | Makes at most 11 + T/5 requests in T seconds, returns what the last one gave, and without a time-out the last polled phase is outside the awaited ones |
| `UwsPolling.Get` | src/safir/uws/_service.py:244-260 | Waits only for active jobs, never longer than allowed or asked for, until the last polled phase is outside the active ones, the given one or the first one; returns what was read last |
| `Uws.MockWobbly.CreateJob` | src/safir/testing/uws/_mocks.py:85-104 | New ids count up; the job is PENDING with whole-second times |
| `Uws.MockWobbly.UpdateJob` | src/safir/testing/uws/_mocks.py:163-203 | Applies the update of its phase, a metadata update without one, or refuses and changes nothing |
| `Uws.MockArqQueue.AbortJob` | safir-arq/src/safir/arq/_queue.py:292-331 | Drops a waiting message, cancels a running one, and leaves all others alone |
| `Uws.MockArqQueue.SetInProgress` | safir-arq/src/safir/arq/_queue.py:352-361 | Only changes the status; afterwards there is a result if and only if there was one before, as the code tests the dictionary of queues |
| `Uws.MockArqQueue.SetComplete` | safir-arq/src/safir/arq/_queue.py:363-392 | Changes the status and stores the outcome, or fails if the message is unknown |
| `Uws.JobService.Create` | src/safir/uws/_service.py:119-159 | A new PENDING job with the configured lifetime and duration |
| `Uws.JobService.Start` | src/safir/uws/_service.py:457-497 | All requests of the call in the model, with its result |
| `Uws.JobService.Abort` | src/safir/uws/_service.py:79-109 | All requests of the call in the model, with its result: the message of an active job is stopped and the job ABORTED |
| `Uws.JobService.Delete` | src/safir/uws/_service.py:161-188 | All requests of the call in the model, with its result: the message of an active job is stopped and exactly this job is gone |
| `Uws.JobService.UpdateDestruction` | src/safir/uws/_service.py:499-549 | All requests of the call in the model, with its result |
| `Uws.JobService.UpdateExecutionDuration` | src/safir/uws/_service.py:551-601 | All requests of the call in the model, with its result |
| `Uws.JobService.JobStarted` | src/safir/uws/_workers.py:124-159 | Marks the job as executing, if it exists |
| `Uws.JobService.JobCompleted` | src/safir/uws/_workers.py:217-276 | All requests of the call in the model once the outcome is there |
| `Uws.JobService.MarkCompleted` | src/safir/uws/_storage.py:214-278 | Sends results or one error; fails without a request for a cancellation |
| `Uws.JobService.MarkInProgress` | src/safir/testing/uws/_mocks.py:298-323 | The message is in progress and the job executing, or nothing changes |
| `Uws.JobService.MarkComplete` | src/safir/testing/uws/_mocks.py:325-358 | The message is over and the job says how, or nothing changes |
| `Uws.WorkerContext.Run` | safir-arq/src/safir/arq/uws.py:314-347 | However the work ends, its start and its end are noted once each in this order, and the pool is replaced if and only if the work timed out or was cancelled |
| `EventManagerModel.QuietAfterFailure` | src/safir/metrics/_event_manager.py:116-163 | After a caught failure no wrapped code runs in a call until more than the backoff has passed |
| `EventManagerModel.RetriesAfterBackoff` | src/safir/metrics/_event_manager.py:116-163 | After a failed publish the next call that reaches a wrapper runs if and only if the backoff has passed |
| `EventManagerModel.FailuresSpread` | src/safir/metrics/_event_manager.py:116-163 | n caught failures without a reset take more than n - 1 backoffs |
| `EventManagerModel.UnrecoverableAbsorbs` | src/safir/metrics/_event_manager.py:116-163 | The unrecoverable state is left only by a shutdown, and nothing runs in it |
| `EventManagerModel.ReadyWasInitialized` | src/safir/metrics/_event_manager.py:702-708 | Ready and recoverable states are reached only after an initialization that completed and was not reset since |
| `EventManagerModel.ErrorsAreRaisedOrCaught` | src/safir/metrics/_event_manager.py:116-163 | With raise_on_error there is never an error state, without it nothing is raised by the wrapper |
| `EventManagerModel.LogsOncePerInterval` | src/safir/metrics/_event_manager.py:325-355 | A failed publisher logs at most once per backoff, and no call is later than a backoff after the last log |
| `EventManagerFailures.ReplySays` | src/safir/metrics/_event_manager.py:116-163 | Exactly when an operation is skipped, succeeds, is a usage error, raises, or is abandoned |
| `EventManagerFailures.StateSays` | src/safir/metrics/_event_manager.py:116-163 | The state and failure time that each of these leaves |
| `EventManagerFailures.PublisherSays` | src/safir/metrics/_event_manager.py:485-516 | A publisher is registered unless an error is raised, and as a real one if and only if its build ran and succeeded |
| `EventManagerFailures.CaughtSays` | src/safir/metrics/_event_manager.py:144-160 | A caught failure is recoverable if and only if it was one of a publish |
| `EventManagerFailures.RetriedIff` | src/safir/metrics/_event_manager.py:116-163 | The next call that gets to a wrapper after a caught failure runs if and only if that was one of a publish and the backoff has passed |
| `EventManagerFailures.NeverAgain` | src/safir/metrics/_event_manager.py:128-130 | After any other caught failure nothing ever runs again before a shutdown that succeeds |
| `EventManagerFailures.PublishersKept` | src/safir/metrics/_event_manager.py:485-516 | A publisher stays what it was registered as until a shutdown succeeds |
| `EventManagerFailures.PublishedWasInitialized` | src/safir/metrics/_event_manager.py:734-736 | A publish that succeeds was preceded by an initialization that completed |
| `EventManager.KafkaEventManager.Abandonable` | src/safir/metrics/_event_manager.py:113-181 | The wrapper changes state and failure time as one attempt of the model; an abandoned publish is recoverable, and any other abandoned operation is not |
| `EventManager.KafkaEventManager.CreatePublisher` | src/safir/metrics/_event_manager.py:451-516 | Checks, initialization, registration and the failed publisher, as one step of the model |
| `EventManager.FailedEventPublisher.Publish` | src/safir/metrics/_event_manager.py:345-355 | Logs if and only if more than the backoff has passed since the last log |
| `PublishedEvents.CheckUnordered` | src/safir/metrics/_testing.py:203-226 | The removal loop leaves over what the recursive greedy matching leaves over, in order |
| `PublishedEvents.CheckOrdered` | src/safir/metrics/_testing.py:228-241 | Passes if and only if some window of the published list equals the expected one |
| `PublishedEvents.AssertPublished` | src/safir/metrics/_testing.py:127-167 | In order it passes if and only if some window matches, although the greedy check comes first; and which failure is raised when |
| `PublishedEvents.AssertPublishedAll` | src/safir/metrics/_testing.py:169-201 | In order it passes if and only if the whole list matches; and which failure is raised when |
| `PublishedEvents.WindowIsFound` | src/safir/metrics/_testing.py:203-226 | For every equality, wildcards included, a matching window makes the greedy removal succeed |
| `PublishedEvents.PassedIsMatching` | src/safir/metrics/_testing.py:203-226 | The any-order check passes only if the expected payloads have distinct matching counterparts |
| `PublishedEvents.FindsMatchingsIff` | src/safir/metrics/_testing.py:203-226 | The any-order check finds a matching whenever there is one if and only if equality is difunctional |
| `PublishedEvents.MissedMatching` | src/safir/metrics/_testing.py:203-226 | Any failure of that, such as a wildcard that takes the wrong payload, makes it reject a list that has a matching |
| `PublishedEvents.EqualityIsInclusion` | src/safir/metrics/_testing.py:203-226 | For true equality the any-order check is inclusion of multisets |
| `PublishedDifference.NotFoundIsDifference` | src/safir/metrics/_testing.py:203-226 | For true equality what is reported as not found is the difference of the two multisets |
| `TestData.UpdatePasses` | src/safir/testing/data/_data.py:309-374 | For all trees the updated data, read back, matches what was seen |
| `TestData.UpdateIsIdempotent` | src/safir/testing/data/_data.py:309-374 | A second update changes nothing |
| `TestData.MatchingUpdateIsNeutral` | src/safir/testing/data/_data.py:309-374 | If the data already matched, the update keeps it as it was read |
| `TestData.WildcardsAfterUpdate` | src/safir/testing/data/_data.py:309-350 | After an update there is a wildcard exactly at the surviving positions where there was one, or where the new data spells one in a place that no old wildcard covers |
| `TestData.PlainMatchesIff` | src/safir/testing/data/_data.py:90-111 | Without wildcards only equal data matches |
| `TestData.Data.AssertJsonMatches` | src/safir/testing/data/_data.py:90-111 | In update mode it passes, touches no other file, and leaves a file that matches what was seen and has exactly the surviving wildcards of the old one; otherwise it compares and changes nothing |
| `TestData.Data.WriteJson` | src/safir/testing/data/_data.py:250-266 | Writes the data with the wildcards of the old file, so that what is read back matches it |
| `TestData.Data.ReadJson` | src/safir/testing/data/_data.py:194-212 | Fails for a missing file; otherwise what is read has the positions of the file, wildcards exactly where the file spells them, and the file matches it |
| `BlockKit.ThreeReplacesEscape` | src/safir/slack/blockkit.py:478-482 | The three chained replacements are one character-wise escape |
| `BlockKit.EscapeInverse` | src/safir/slack/blockkit.py:478-482 | The escape has an inverse |
| `BlockKit.EndFits` | src/safir/slack/blockkit.py:458-491 | Truncating at the end fits if and only if nothing had to go or the mark itself fits |
| `BlockKit.EndKeepsPrefix` | src/safir/slack/blockkit.py:458-491 | It keeps a first part up to the last line break in the room, or all of the room |
| `BlockKit.CleanCutIff` | src/safir/slack/blockkit.py:478-491 | A cut through escaped text leaves whole characters on both sides if and only if every ampersand in front of it has a semicolon behind it there |
| `BlockKit.EndCutIsClean` | src/safir/slack/blockkit.py:458-491 | What truncation at the end keeps is the escape of a text if and only if no ampersand in it is left open; then it is the escape of a first part of the text |
| `BlockKit.EndKeepsWholeCharacters` | src/safir/slack/blockkit.py:458-491 | So with a line break in the room what is kept is the escape of a first part of the text |
| `BlockKit.EndCanSplitCharacter` | src/safir/slack/blockkit.py:458-491 | Without one an escaped character can be cut, as in this text of ampersands |
| `BlockKit.TruncateAtStart` | src/safir/slack/blockkit.py:494-531 | The loop removes the fewest first lines such that the rest fits, and runs out of lines if and only if there is no room for the mark without its line break |
| `BlockKit.StartFits` | src/safir/slack/blockkit.py:494-531 | Truncating several lines at the start fits if and only if the mark fits, and keeps a last part of the text in whole lines |
| `BlockKit.StartCutIsClean` | src/safir/slack/blockkit.py:523-527 | Truncating a single line at the start keeps the escape of a last part of the text if and only if what is dropped leaves no ampersand open |
| `BlockKit.StartCanSplitCharacter` | src/safir/slack/blockkit.py:523-527 | Otherwise the rest of an escaped character can be left |
| `BlockKit.TextBlockFits` | src/safir/slack/blockkit.py:69-82 | A text block fits its length if and only if its text does or the mark has room after the heading |
| `BlockKit.TextBlockShows` | src/safir/slack/blockkit.py:69-82 | Under the heading it shows the whole text if there is room for it, and otherwise a first part and the mark |
| `BlockKit.CodeBlock` | src/safir/slack/blockkit.py:98-112 | A code block is produced and fits if and only if its code does or the mark has room; it shows the whole code if that fits, and otherwise the mark and the last part of the code from the first line that leaves room for it |
| `Duration.Unambiguous` | src/safir/datetime/_parse.py:11-17 | The pattern can match a text with given numbers if and only if the choice-free parser finds these numbers; so no text means two things |
| `Duration.AcceptedIff` | src/safir/datetime/_parse.py:100-104 | A text is accepted if and only if the pattern can match it without the space around it |
| `Duration.MeansTheSum` | src/safir/datetime/_parse.py:100-104 | In whatever way the pattern matches, the duration is the sum of its numbers |
| `Duration.ShortestRoundTrip` | src/safir/datetime/_parse.py:11-17 | Any five optional numbers are read back from their shortest spelling |
| `Duration.BlankIsZero` | src/safir/datetime/_parse.py:100-104 | The empty text and every blank one mean no time |
| `DurationUnits.TermsMeanTheSum` | src/safir/datetime/_parse.py:11-17 | A text of numbers with words behind them is accepted if and only if every word is a unit word and the units descend; it means the sum of these units |

## Left out

- Uws.JobService.JobCompleted: requires that the outcome has arrived, because the polling loop of the source never updates its clock and so never gives up; the branch for an outcome that stays unavailable is not reached with the mock queue.
- UwsPolling.WaitForJob: ties between the deadline and the end of a sleep or a request count as in time, and what others do meanwhile is given by the answers to the requests.
- Pagination.PaginatedQuery: negative limits, which the source passes on to the database, are not part of the model.
- CursorText.CursorRoundTrip: timestamps are exact decimals; rounding of floats, exponents and other spellings that Python accepts are not part of the model.
- MultiQueue.AsyncMultiQueue.AiterFrom: a negative start position is not part of the model, and time-outs come at any moment at which the iterator waits.
- LinkHeader.HeaderRoundTrip: URLs are opaque texts; how query parameters are quoted is left to the URL library.
- Duration.AcceptedIff: digits other than ASCII ones and the overflow of `timedelta` are not part of the model.
- EventManagerModel.FailuresSpread: calls of the event manager are taken one at a time.
- Uws.MockWobbly.UpdateJob: job records are values in the dictionary, as responses are copies and no record is shared; listing jobs and the tokens of the mock are left out.
- Uws.MockArqQueue.Enqueue: message ids count up in place of random ones, which never collide; only the default queue is modelled, and arguments of a message other than the job are dropped.
- Uws.JobService.Abort: exceptions of the real arq client and failed requests to Wobbly are left out; with them a start could leave a job PENDING although its message was sent.
- Uws.WorkerContext.Run: validation of the parameters before the first message and the work itself are left out; its result is a parameter.
- Kubernetes.MockKubernetesApi.StoreObject: stored bodies are fresh values, so a caller who changes a body later is not modelled; nor are creation hooks, injected errors, objects of cluster scope, events of pods, and the methods of each kind that only repeat these.
- Kubernetes.MockKubernetesApi.Watch: selectors are given in parsed form, and this method ends where the watch would wait; waiting and resuming are in `KubernetesWatch`.
- TestData.Data.AssertJsonMatches: Python's `1 == True`, keys that are no strings, the fake file system and the text and Pydantic variants are left out.
- BlockKit.CodeBlock: headings are taken as they are, as in the source, and assembling a whole message is left out.
- HTTP, Redis, Kafka, SQL, Kubernetes and Slack clients, Pydantic validation, XML, templates, FastAPI routes and logging: foreign libraries or plumbing.
- Small helpers such as `validate_exactly_one_of`, the middleware and the configuration classes: they would only add easy members.
