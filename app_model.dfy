/** `AppModel`: the app-wide download and immersive-space state. Each download request wraps an
    operation of the download manager in a cancellable task; the task's body runs later, as an
    event, with the way its operation ended supplied as an input. */
module App {
  import opened Wrappers
  import DownloadManager

  datatype ImmersiveSpaceState = Closed | InTransition | Open

  /** The errors an operation can throw: `CancellationError`, or any other error. */
  datatype TaskError = Cancellation | Failure(description: string)

  datatype DownloadState = Idle | Running | Completed | Failed(error: TaskError)

  /** The operation a download task wraps. */
  datatype Operation = DownloadAll | DownloadWithLimit(maxConcurrent: int)

  /** How a task's operation ended: it returned (having set `.completed`), or it threw. */
  datatype Ending = Returned | Threw(error: TaskError)

  class AppModel {
    var immersiveSpaceState: ImmersiveSpaceState
    var downloadState: DownloadState
    var isDownloading: bool
    var lastError: Option<TaskError>
    const usdzDownloadManager: DownloadManager.Manager
    /** The handle of the current download task, as the task's number. */
    var currentDownloadTask: Option<nat>
    /** The operation of every task created so far; task `k` wraps `operations[k]`. */
    var operations: seq<Operation>
    /** The tasks on which `cancel()` has been called. */
    var cancelled: set<nat>
    /** The tasks whose body has run. */
    var finished: set<nat>

    /** A current task exists exactly while `isDownloading`; it is a created task that has been
        neither cancelled nor run, and the state is `.running` meanwhile. A failed state carries
        the error also kept in `lastError`, and a stored error is never a cancellation. */
    ghost predicate Valid()
      reads this
    {
      && (isDownloading <==> currentDownloadTask.Some?)
      && (currentDownloadTask.Some? ==>
            && currentDownloadTask.value < |operations|
            && currentDownloadTask.value !in cancelled
            && currentDownloadTask.value !in finished
            && downloadState == Running)
      && (downloadState.Failed? ==> lastError == Some(downloadState.error))
      && (lastError.Some? ==> lastError.value.Failure?)
      && (forall k :: k in cancelled ==> k < |operations|)
      && (forall k :: k in finished ==> k < |operations|)
    }

    /** `init(usdzDownloadManager:)`. */
    constructor (usdzDownloadManager: DownloadManager.Manager)
      ensures this.usdzDownloadManager == usdzDownloadManager
      ensures immersiveSpaceState == Closed && downloadState == Idle
      ensures !isDownloading && lastError == None && currentDownloadTask == None
      ensures operations == [] && cancelled == {} && finished == {}
      ensures Valid()
    {
      this.usdzDownloadManager := usdzDownloadManager;
      immersiveSpaceState := Closed;
      downloadState := Idle;
      isDownloading := false;
      lastError := None;
      currentDownloadTask := None;
      operations := [];
      cancelled := {};
      finished := {};
    }

    /** `startDownloadTask(_:)`, up to the creation of the task: any current task is cancelled,
        the state becomes `.running` with no error, and a new task becomes current. */
    method StartDownloadTask(operation: Operation)
      requires Valid()
      modifies this`downloadState, this`isDownloading, this`lastError, this`currentDownloadTask,
        this`operations, this`cancelled
      ensures Valid()
      ensures cancelled == old(cancelled) + (if old(currentDownloadTask).Some? then {old(currentDownloadTask).value} else {})
      ensures isDownloading && lastError == None && downloadState == Running
      ensures operations == old(operations) + [operation]
      ensures currentDownloadTask == Some(|old(operations)|)
    {
      if currentDownloadTask.Some? {
        cancelled := cancelled + {currentDownloadTask.value};
      }
      isDownloading := true;
      lastError := None;
      downloadState := Running;
      currentDownloadTask := Some(|operations|);
      operations := operations + [operation];
    }

    /** `downloadAllConcurrently()`. */
    method DownloadAllConcurrently()
      requires Valid()
      modifies this`downloadState, this`isDownloading, this`lastError, this`currentDownloadTask,
        this`operations, this`cancelled
      ensures Valid()
      ensures cancelled == old(cancelled) + (if old(currentDownloadTask).Some? then {old(currentDownloadTask).value} else {})
      ensures isDownloading && lastError == None && downloadState == Running
      ensures operations == old(operations) + [DownloadAll]
      ensures currentDownloadTask == Some(|old(operations)|)
    {
      StartDownloadTask(DownloadAll);
    }

    /** `downloadAllWithLimit(maxConcurrent:)`, whose limit defaults to 3. */
    method DownloadAllWithLimit(maxConcurrent: int := 3)
      requires Valid()
      modifies this`downloadState, this`isDownloading, this`lastError, this`currentDownloadTask,
        this`operations, this`cancelled
      ensures Valid()
      ensures cancelled == old(cancelled) + (if old(currentDownloadTask).Some? then {old(currentDownloadTask).value} else {})
      ensures isDownloading && lastError == None && downloadState == Running
      ensures operations == old(operations) + [DownloadWithLimit(maxConcurrent)]
      ensures currentDownloadTask == Some(|old(operations)|)
    {
      StartDownloadTask(DownloadWithLimit(maxConcurrent));
    }

    /** `cancelDownloads()`: the current task, if any, is cancelled and forgotten, and the state
        is back to `.idle`. */
    method CancelDownloads()
      requires Valid()
      modifies this`currentDownloadTask, this`isDownloading, this`downloadState, this`cancelled
      ensures Valid()
      ensures cancelled == old(cancelled) + (if old(currentDownloadTask).Some? then {old(currentDownloadTask).value} else {})
      ensures currentDownloadTask == None && !isDownloading && downloadState == Idle
    {
      if currentDownloadTask.Some? {
        cancelled := cancelled + {currentDownloadTask.value};
      }
      currentDownloadTask := None;
      isDownloading := false;
      downloadState := Idle;
    }

    /** The body of task `id`. A task cancelled before its body starts returns at once and
        leaves the state alone. Otherwise its operation runs: a normal return leaves
        `.completed`, a cancellation error `.idle` with `lastError` untouched, any other error
        `.failed` with that error also in `lastError`. In every case the deferred cleanup then
        clears `isDownloading` and the current handle, even when that handle belongs to a
        newer task. */
    method RunTask(id: nat, ending: Ending)
      requires Valid() && id < |operations| && id !in finished
      modifies this`downloadState, this`lastError, this`isDownloading, this`currentDownloadTask,
        this`finished
      ensures Valid()
      ensures finished == old(finished) + {id}
      ensures !isDownloading && currentDownloadTask == None
      ensures id in cancelled ==> downloadState == old(downloadState) && lastError == old(lastError)
      ensures id !in cancelled ==>
        match ending
        case Returned => downloadState == Completed && lastError == old(lastError)
        case Threw(Cancellation) => downloadState == Idle && lastError == old(lastError)
        case Threw(Failure(d)) => downloadState == Failed(Failure(d)) && lastError == Some(Failure(d))
    {
      if id !in cancelled {
        match ending {
          case Returned =>
            downloadState := Completed;
          case Threw(Cancellation) =>
            downloadState := Idle;
          case Threw(e) =>
            lastError := Some(e);
            downloadState := Failed(e);
        }
      }
      isDownloading := false;
      currentDownloadTask := None;
      finished := finished + {id};
    }

    /** `beginImmersiveTransition()`. */
    method BeginImmersiveTransition()
      modifies this`immersiveSpaceState
      ensures immersiveSpaceState == InTransition
    {
      immersiveSpaceState := InTransition;
    }

    /** `markImmersiveOpen()`. */
    method MarkImmersiveOpen()
      modifies this`immersiveSpaceState
      ensures immersiveSpaceState == Open
    {
      immersiveSpaceState := Open;
    }

    /** `markImmersiveClosed()`. */
    method MarkImmersiveClosed()
      modifies this`immersiveSpaceState
      ensures immersiveSpaceState == Closed
    {
      immersiveSpaceState := Closed;
    }
  }
}
