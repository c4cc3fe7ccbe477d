# USDZ download test: a verified model of the download manager and the app model

The app fetches a fixed list of USDZ files and turns each one into a RealityKit entity. It
shows per-file and whole-run timings while it does this. This project models the two classes
that hold its state and proves properties of that model.

- `USDZDownloadManager` keeps one `USDZFileInfo` record per URL. It provides:
  - aggregates: completed count, progress, durations and the rendered entities;
  - the download task of one file (`downloadFile`, then `createEntity`);
  - two run-all methods, one unlimited and one that admits at most `maxConcurrentDownloads`
    tasks at a time.
- `AppModel` wraps a run-all call in a cancellable task. It keeps the download state and the
  immersive-space state.

Layout:

| file | module | contents |
|---|---|---|
| `wrappers.dfy` | `Wrappers` | `Option`, standing for Swift's `T?` |
| `file_record.dfy` | `FileRecord` | `USDZFileInfo`, described below |
| `schedule.dfy` | `Schedule` | the task-group trace of a run, described below |
| `download_manager.dfy` | `DownloadManager` | aggregates and notifications as functions, plus the class `Manager` |
| `app_model.dfy` | `App` | the class `AppModel` |

What each module holds:

- `FileRecord` defines:
  - the record `USDZFileInfo`;
  - the changes one download task makes to a record;
  - the predicates `Running` and `Settled`, which name the record states a run passes through.
- `Schedule` defines the trace of a run as a pure function, `Bounded(count, limit, choices)`:
  - the trace is the sequence of task starts and completions;
  - `choices` decides which in-flight task completes next.

  Its lemmas prove four things about that trace: the in-flight bound, admission in index
  order, the refill of a freed slot by the next index, and that every index completes exactly
  once.
- In `DownloadManager`, the class `Manager` has the manager's fields and methods. It also has
  two ghost fields:
  - `tasks`, the task-group actions performed so far;
  - `notices`, the notifications posted so far.

How the model represents the outside world:

- Each reading of `Date()` is one tick of an integer clock that only advances (`Manager.Now`).
- Network transfer, temp-file writing and entity loading are inputs (`FileRecord.Outcome`):
  - the address is invalid;
  - the transfer fails with a message;
  - or `byteCount` bytes arrive, after which decoding either succeeds with an entity handle or
    fails with a message.
- The two run-all methods take one outcome per file, and a sequence of choices that fixes the
  completion order.
- The task group is modelled as one sequential interleaving:
  - a task that `addTask` starts runs to the first suspension of `downloadFile` at once;
  - each `taskGroup.next()` lets one in-flight task, picked by the choices, run to its end.

Facts about the code that the model keeps:

- `usdzFileReady` is posted only for files whose bytes arrived, whether decoding then succeeds
  or fails. A file that stops at an invalid address or a failed transfer gets none.
- A decoding failure leaves `isDownloaded` true and also sets `error`.
  `FileRecord.SettledMeaning` states this.
- Any non-negative limit is accepted. With 0 nothing starts, yet the run is still bracketed and
  the all-complete notification is posted.
- The code has no retry, adaptive concurrency, speed tracking, statistics or worker
  cancellation.

## Model

| member | source | states |
|---|---|---|
| FileRecord.Elapsed | USDZ_DownloadTest/USDZDownloadManager.swift:29-37 | a duration exists exactly when both its start and its end are present, and then equals end minus start (used for the download, render and total durations) |
| FileRecord.DownloadDuration | USDZ_DownloadTest/USDZDownloadManager.swift:29-32 | `downloadDuration` is known exactly when both download readings are, and then adding it to the start gives the end |
| FileRecord.RenderDuration | USDZ_DownloadTest/USDZDownloadManager.swift:34-37 | `renderDuration` is known exactly when both render readings are, and then adding it to the start gives the end |
| FileRecord.BeganRuns | USDZ_DownloadTest/USDZDownloadManager.swift:173-174 | starting a fresh record marks it downloading with its start time read after the run began, and changes nothing else |
| FileRecord.FinishedSettles | USDZ_DownloadTest/USDZDownloadManager.swift:177-236 | finishing a running record with an outcome leaves every field as that outcome dictates: "Invalid URL" with no end time; the transfer error with an end time; or end time, byte count, downloaded, then render start/end and either entity and rendered or the decode error; timestamps strictly increase within the run |
| FileRecord.SettledMeaning | USDZ_DownloadTest/USDZDownloadManager.swift:177-236 | a finished record counts as completed and is not downloading; it has a positive download duration unless the address was invalid, and a positive render duration exactly when the bytes arrived; it holds an entity exactly when decoding succeeded, and an error exactly otherwise; `isDownloaded` stays true after a decode failure |
| FileRecord.SettledLater | USDZ_DownloadTest/USDZDownloadManager.swift:177-201 | a finished record stays finished as the clock advances |
| DownloadManager.CountWhereAll | USDZ_DownloadTest/USDZDownloadManager.swift:74 | the filtered count equals the total exactly when every record passes the filter |
| DownloadManager.CountWhereNone | USDZ_DownloadTest/USDZDownloadManager.swift:74 | the filtered count is zero exactly when no record passes the filter |
| DownloadManager.CountWhereUpdate | USDZ_DownloadTest/USDZDownloadManager.swift:74 | replacing one record changes the count by exactly what the old and the new record contribute |
| DownloadManager.CompletedDownloadsCount | USDZ_DownloadTest/USDZDownloadManager.swift:73-75 | the number of downloaded-or-failed records never exceeds the number of files |
| DownloadManager.DownloadProgress | USDZ_DownloadTest/USDZDownloadManager.swift:83-86 | progress lies in [0, 1], is 0 for an empty list, and otherwise times the file count equals the completed count |
| DownloadManager.RenderedEntities | USDZ_DownloadTest/USDZDownloadManager.swift:253-255 | one entity per record that holds one (so no more than the records), and an entity is in the result exactly when some record holds it |
| DownloadManager.RenderedEntitiesOrder | USDZ_DownloadTest/USDZDownloadManager.swift:253-255 | index order: the entity of record `i` is at the position given by the number of earlier records holding an entity; with the length above this fixes the whole result |
| DownloadManager.SettledRunAggregates | USDZ_DownloadTest/USDZDownloadManager.swift:73-86 | once every record has finished, all of them count as completed, the progress is 1, and the rendered entities are exactly the successfully decoded ones in index order |
| DownloadManager.FreshAggregates | USDZ_DownloadTest/USDZDownloadManager.swift:258-271 | a newly created or reset list has nothing completed, progress 0, no entities and nothing downloading |
| DownloadManager.ReadyForCount | USDZ_DownloadTest/USDZDownloadManager.swift:222-249 | a file's ready notification is posted as often as the file completes if its bytes arrived, and never otherwise; completions never post the all-complete notification |
| DownloadManager.ReadyExactlyOnce | USDZ_DownloadTest/USDZDownloadManager.swift:117-161 | in a run with a positive limit each file whose bytes arrived gets exactly one ready notification and every other file none; with limit 0 there are none; none of these is the all-complete notification |
| DownloadManager.BoundedTrace | USDZ_DownloadTest/USDZDownloadManager.swift:129-153 | a run's trace is its initial starts followed by the drain of the group, and only the drain posts notifications |
| DownloadManager.Manager.constructor | USDZ_DownloadTest/USDZDownloadManager.swift:56-58 | one fresh record per URL in the same order, no run in progress, counter 0, the counter invariant holds |
| DownloadManager.Manager.TotalDownloadDuration | USDZ_DownloadTest/USDZDownloadManager.swift:61-64 | the total duration is known exactly when the run's start and end are, and then adding it to the start gives the end |
| DownloadManager.Manager.TotalFilesCount | USDZ_DownloadTest/USDZDownloadManager.swift:78-80 | the completed count never exceeds the file count, which is 0 exactly for an empty list |
| DownloadManager.Manager.ResetAllFileStates | USDZ_DownloadTest/USDZDownloadManager.swift:258-271 | same number of records, each with its identity and URL and every other field back to the fresh state; as the counter is not touched, the counter invariant holds afterwards exactly when the counter is 0 |
| DownloadManager.Manager.BeginDownload | USDZ_DownloadTest/USDZDownloadManager.swift:170-175 | only `files[index]` changes: it becomes downloading with a fresh start time; the counter goes up by one and still counts the downloading records |
| DownloadManager.Manager.FinishDownload | USDZ_DownloadTest/USDZDownloadManager.swift:177-201 | only `files[index]` changes, as the outcome dictates; the counter goes down by exactly one on each of the three exits, so the `max(0, …)` clamp never takes effect; a ready notification is posted exactly when the bytes arrived |
| DownloadManager.Manager.CreateEntity | USDZ_DownloadTest/USDZDownloadManager.swift:204-251 | only `files[index]` changes: render start read; the entity set and marked rendered, or the error recorded; render end read; a ready notification posted on both paths; the counter invariant holds afterwards exactly when it held before |
| DownloadManager.Manager.DownloadFile | USDZ_DownloadTest/USDZDownloadManager.swift:170-202 | an index past the end changes nothing; otherwise only `files[index]` changes, to its finished form for the outcome, and the counter returns to its old value |
| DownloadManager.Manager.BeginRun | USDZ_DownloadTest/USDZDownloadManager.swift:88-96 | start time read, end time cleared, run flagged, every record reset, counter 0 (also lines 117-125) |
| DownloadManager.Manager.EndRun | USDZ_DownloadTest/USDZDownloadManager.swift:107-113 | end time read after the run started, run flag cleared, exactly one all-complete notification appended after every ready notification (also lines 155-161) |
| DownloadManager.Manager.StartTask | USDZ_DownloadTest/USDZDownloadManager.swift:101-103 | adding a task starts the next unstarted index and keeps the run invariant: counter equal to the number in flight, distinct in-flight indices, finished records settled, unstarted ones untouched |
| DownloadManager.Manager.AwaitTask | USDZ_DownloadTest/USDZDownloadManager.swift:144 | `taskGroup.next()` completes one in-flight task, settles its record with its outcome and keeps the run invariant |
| DownloadManager.Manager.CompleteOne | USDZ_DownloadTest/USDZDownloadManager.swift:144-151 | one turn of the loop appends exactly one turn of the specified trace (the chosen completion, then the next start if an index is left) |
| DownloadManager.Manager.AwaitGroup | USDZ_DownloadTest/USDZDownloadManager.swift:144-152 | the loop performs exactly the drain of the group and posts exactly its notifications; it ends with nothing in flight and, when the group was never empty while an index remained, every index started |
| DownloadManager.Manager.StartEvery | USDZ_DownloadTest/USDZDownloadManager.swift:99-105 | every index is started, in order |
| DownloadManager.Manager.StartInitial | USDZ_DownloadTest/USDZDownloadManager.swift:130-141 | the first `min(limit, count)` indices are started, in order, and `currentIndex` ends at that number |
| DownloadManager.Manager.RunGroup | USDZ_DownloadTest/USDZDownloadManager.swift:127-153 | the task group performs exactly the specified bounded trace, and every index is started if the limit is positive, none otherwise |
| DownloadManager.Manager.RunEvery | USDZ_DownloadTest/USDZDownloadManager.swift:99-105 | the unlimited task group performs exactly the trace `Bounded(n, n, choices)` and posts exactly its ready notifications, leaving every index started and none in flight |
| DownloadManager.Manager.StartDownloadingAll | USDZ_DownloadTest/USDZDownloadManager.swift:88-114 | the run performs exactly the unlimited trace `Bounded(n, n, choices)`; every record settles inside the run bracket with its outcome; counter 0, run flag cleared, total duration positive; ready notifications then one all-complete |
| DownloadManager.Manager.StartDownloadingAllWithLimit | USDZ_DownloadTest/USDZDownloadManager.swift:117-162 | the run performs exactly `Bounded(n, limit, choices)`; with a positive limit every record settles inside the run bracket, with limit 0 all stay reset; counter 0, run flag cleared; ready notifications then one all-complete |
| Schedule.Admitted | USDZ_DownloadTest/USDZDownloadManager.swift:133 | `min(limit, count)`: at most both, and equal to one of them |
| Schedule.BoundedInFlight | USDZ_DownloadTest/USDZDownloadManager.swift:129-153 | at every prefix of the trace the number of tasks in flight is between 0 and the limit |
| Schedule.BoundedStarts | USDZ_DownloadTest/USDZDownloadManager.swift:129-153 | the indices are started exactly once each, in increasing order; with limit 0 none is started |
| Schedule.BoundedFinishes | USDZ_DownloadTest/USDZDownloadManager.swift:144-152 | with a positive limit every index completes exactly once before the loop ends; with limit 0 none does |
| Schedule.BoundedAdmission | USDZ_DownloadTest/USDZDownloadManager.swift:133-151 | the trace opens with the starts of the first `min(limit, count)` indices, and every later start immediately follows a completion |
| Schedule.BoundedRefill | USDZ_DownloadTest/USDZDownloadManager.swift:143-151 | the converse of the admission rule: each completion while an index is still unstarted is immediately followed by the start of the lowest unstarted index, so no slot stays idle while work remains |
| Schedule.UnlimitedStartsAll | USDZ_DownloadTest/USDZDownloadManager.swift:99-105 | in the unlimited run every index is started before anything completes |
| Schedule.BoundedOne | USDZ_DownloadTest/USDZDownloadManager.swift:164-168 | with limit 1 the run is sequential: start 0, finish 0, start 1, finish 1, …, whatever the choices |
| Schedule.DrainInFlight | USDZ_DownloadTest/USDZDownloadManager.swift:144-152 | draining a group that starts within the limit never exceeds the limit |
| Schedule.DrainStarts | USDZ_DownloadTest/USDZDownloadManager.swift:145-150 | the drain starts the remaining indices in increasing order |
| Schedule.DrainFinishes | USDZ_DownloadTest/USDZDownloadManager.swift:144-152 | the drain completes each in-flight and each not-yet-started index exactly once |
| App.AppModel.constructor | USDZ_DownloadTest/AppModel.swift:82-84 | closed immersive space, idle, not downloading, no error, no task; the model invariant holds |
| App.AppModel.StartDownloadTask | USDZ_DownloadTest/AppModel.swift:141-149 | the previous task, if any, is cancelled; downloading, no error, `.running`, and a new task is current |
| App.AppModel.DownloadAllConcurrently | USDZ_DownloadTest/AppModel.swift:95-100 | starts a task wrapping the unlimited run, as `StartDownloadTask` states |
| App.AppModel.DownloadAllWithLimit | USDZ_DownloadTest/AppModel.swift:105-110 | starts a task wrapping the limited run with the given limit (default 3), as `StartDownloadTask` states |
| App.AppModel.CancelDownloads | USDZ_DownloadTest/AppModel.swift:114-119 | the current task is cancelled; no current task, not downloading, `.idle` |
| App.AppModel.RunTask | USDZ_DownloadTest/AppModel.swift:149-167 | a task cancelled before its body starts leaves state and error alone; otherwise a normal return gives `.completed` (lines 98 and 108), a cancellation error `.idle` with the error untouched, any other error `.failed` with it in `lastError`; every path ends not downloading with no current task |
| App.AppModel.BeginImmersiveTransition | USDZ_DownloadTest/AppModel.swift:124-126 | the immersive space is in transition and no other field changes |
| App.AppModel.MarkImmersiveOpen | USDZ_DownloadTest/AppModel.swift:129-131 | the immersive space is open and no other field changes |
| App.AppModel.MarkImmersiveClosed | USDZ_DownloadTest/AppModel.swift:134-136 | the immersive space is closed and no other field changes |

`Manager.Valid` is the invariant that `currentActiveDownloads` equals the number of downloading
records. Every `Manager` method that changes the records or the counter keeps it, with one
exception. `ResetAllFileStates` clears every downloading flag but leaves the counter alone, so
`Valid` then holds exactly when the counter is 0. The run prologue `BeginRun` sets the counter
to 0 right after the reset.

`AppModel.Valid` ties four things together: `isDownloading`, the current task, `.running`, and
the pairing of `.failed` with `lastError`. Every `AppModel` method that changes these fields
preserves it.

## Left out

- Networking, file I/O and RealityKit: `URLSession`, `URL(string:)` validity, the temp file,
  `Entity(contentsOf:)` and its cleanup become the supplied `Outcome`. An entity is an opaque
  handle.
- `fileName`, `fileSizeFormatted` and `totalDownloadDurationFormatted` are omitted. They
  depend on Foundation URL parsing and on string and floating-point formatting.
- Timestamps are ticks of an integer clock that only advances, not wall-clock `Date`s.
  Durations are tick differences, not `TimeInterval`s. `downloadProgress` is an exact `real`,
  not a `Double`.
- Real concurrency is omitted: `TaskGroup` parallelism, `MainActor` hops and the delivery of
  notifications. The model runs one interleaving: a child task runs to its first suspension
  when it is added, and runs to its end when `taskGroup.next()` returns it. Races between
  overlapping runs of one manager are not modelled.
- A ready notification carries only the file index. The record snapshot in `userInfo` and the
  `print` logging are left out.
- `USDZFileInfo.id` is a `UUID`. The model gives record `i` the identity `i`, which is likewise
  distinct per record.
- `fileSize` is a `nat`, not an `Int64`.
- FileRecord.FinishedSettles: the strictly increasing timestamps come from the modelled clock,
  which advances by one per reading. `Date()` is wall-clock time: two readings can be equal or
  go backwards.
- FileRecord.SettledMeaning: the positive download and render durations come from the modelled
  clock, not from the program. With wall-clock `Date()`, `timeIntervalSince` can be 0 or
  negative.
- DownloadManager.Manager.StartDownloadingAll: that the run's start and end follow the entry
  reading, in order, and that the total duration is positive comes from the modelled clock. The
  same holds for `DownloadManager.Manager.StartDownloadingAllWithLimit` and
  `DownloadManager.Manager.EndRun`.
- `DownloadManager.Manager.StartDownloadingAllWithLimit`: requires a non-negative limit. For a
  negative limit the range `0..<min(...)` traps.
- The source parameter of `startDownloadingAllWithLimit` defaults to 3. The model has no
  default there. `AppModel` always passes a limit, and `App.AppModel.DownloadAllWithLimit`
  keeps its own default of 3.
- `App.AppModel.RunTask`:
  - The operation is not run; how it ended is a supplied `Ending`. Both real operations call
    the manager and then set `.completed`, and neither can throw, so only `Returned` arises
    from them. The two `catch` branches are modelled for the general contract. The effect of
    the wrapped run on the manager is what
    `DownloadManager.Manager.StartDownloadingAll` and
    `DownloadManager.Manager.StartDownloadingAllWithLimit` state.
  - The deferred cleanup runs in a separate main-actor task. Here it runs right after the
    body.
  - As in the source, the cleanup of a superseded task also clears `isDownloading` and the
    handle of the newer task that replaced it.
- `immersiveSpaceID` and `defaultUSDZURLs` are constants without behaviour. The
  `convenience init()` only combines them with `init(usdzDownloadManager:)`.
- The SwiftUI views, the immersive view's scene placement, the app wiring and the
  notification-name constants are not part of this model.
