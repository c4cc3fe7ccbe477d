/** `USDZDownloadManager`: the list of file records, the derived aggregates, the download task
    of one file and the two run-all methods with their admission rules. Transfers and decoding
    are supplied as outcomes; which in-flight task completes next is supplied as a sequence of
    choices; the notifications posted are kept in a ghost log. */
module DownloadManager {
  import opened Wrappers
  import opened FileRecord
  import opened Schedule

  /** The notifications the manager posts: `usdzFileReady` with the file's index, and
      `allUsdzFilesDownloadComplete`. */
  datatype Notice = FileReady(index: nat) | AllComplete

  // ---------------------------------------------------------------------------------------
  // Aggregates over the file list

  /** `s.filter(p).count`. */
  function CountWhere(s: seq<FileInfo>, p: FileInfo -> bool): (c: nat)
    ensures c <= |s|
  {
    if s == [] then 0 else (if p(s[0]) then 1 else 0) + CountWhere(s[1..], p)
  }

  /** The count is the whole length exactly when every record passes the filter. */
  lemma {:induction false} CountWhereAll(s: seq<FileInfo>, p: FileInfo -> bool)
    ensures CountWhere(s, p) == |s| <==> forall i :: 0 <= i < |s| ==> p(s[i])
  {
    if s != [] {
      CountWhereAll(s[1..], p);
      assert forall i :: 1 <= i < |s| ==> s[i] == s[1..][i - 1];
    }
  }

  /** The count is zero exactly when no record passes the filter. */
  lemma {:induction false} CountWhereNone(s: seq<FileInfo>, p: FileInfo -> bool)
    ensures CountWhere(s, p) == 0 <==> forall i :: 0 <= i < |s| ==> !p(s[i])
  {
    if s != [] {
      CountWhereNone(s[1..], p);
      assert forall i :: 1 <= i < |s| ==> s[i] == s[1..][i - 1];
    }
  }

  /** Replacing one record changes the count by what that record contributes. */
  lemma {:induction false} CountWhereUpdate(s: seq<FileInfo>, i: nat, x: FileInfo, p: FileInfo -> bool)
    requires i < |s|
    ensures CountWhere(s[i := x], p)
      == CountWhere(s, p) - (if p(s[i]) then 1 else 0) + (if p(x) then 1 else 0)
  {
    if i == 0 {
      assert s[i := x][1..] == s[1..];
    } else {
      assert s[i := x][1..] == s[1..][i - 1 := x];
      CountWhereUpdate(s[1..], i - 1, x, p);
    }
  }

  /** `completedDownloadsCount`: records that are downloaded or carry an error. */
  function CompletedDownloadsCount(files: seq<FileInfo>): (c: nat)
    ensures c <= |files|
  {
    CountWhere(files, IsComplete)
  }

  /** `downloadProgress`: 0 for an empty list, otherwise completed / total. */
  function DownloadProgress(files: seq<FileInfo>): (r: real)
    ensures 0.0 <= r <= 1.0
    ensures |files| == 0 ==> r == 0.0
    ensures |files| > 0 ==> r * (|files| as real) == CompletedDownloadsCount(files) as real
  {
    if |files| == 0 then 0.0
    else CompletedDownloadsCount(files) as real / |files| as real
  }

  /** The records `compactMap { $0.entity }` keeps: those holding an entity. */
  predicate HasEntity(f: FileInfo) {
    f.entity.Some?
  }

  /** `getRenderedEntities`: `files.compactMap { $0.entity }`. There is one entity per record
      that holds one (their order is `RenderedEntitiesOrder`). */
  function RenderedEntities(files: seq<FileInfo>): (es: seq<Entity>)
    ensures |es| == CountWhere(files, HasEntity) && |es| <= |files|
    ensures forall e :: e in es <==> exists i :: 0 <= i < |files| && files[i].entity == Some(e)
  {
    if files == [] then []
    else
      var rest := RenderedEntities(files[1..]);
      assert forall i :: 1 <= i < |files| ==> files[i] == files[1..][i - 1];
      (if files[0].entity.Some? then [files[0].entity.value] else []) + rest
  }

  /** `compactMap` keeps index order: the entity of record `i` sits right after the entities of
      the records before it. */
  lemma {:induction false} RenderedEntitiesOrder(files: seq<FileInfo>, i: nat)
    requires i < |files| && files[i].entity.Some?
    ensures CountWhere(files[..i], HasEntity) < |RenderedEntities(files)|
    ensures RenderedEntities(files)[CountWhere(files[..i], HasEntity)] == files[i].entity.value
  {
    var head := if files[0].entity.Some? then [files[0].entity.value] else [];
    var rest := RenderedEntities(files[1..]);
    assert RenderedEntities(files) == head + rest;
    if i == 0 {
      assert files[..0] == [];
    } else {
      var before := files[..i];
      var c := CountWhere(files[1..][..i - 1], HasEntity);
      assert before[0] == files[0] && before[1..] == files[1..][..i - 1];
      assert CountWhere(before, HasEntity) == |head| + c;
      assert files[i] == files[1..][i - 1];
      RenderedEntitiesOrder(files[1..], i - 1);
      assert (head + rest)[|head| + c] == rest[c];
    }
  }

  /** The two values of the progress fraction that the run lemmas need. */
  lemma Fraction(c: nat, n: nat)
    requires 0 < n
    ensures c == 0 ==> c as real / n as real == 0.0
    ensures c == n ==> c as real / n as real == 1.0
  {
  }

  /** The entities of the outcomes whose decoding succeeded, in index order. */
  function DecodedEntities(outcomes: seq<Outcome>): seq<Entity>
  {
    if outcomes == [] then []
    else
      (if outcomes[0].Fetched? && outcomes[0].decode.Decoded? then [outcomes[0].decode.entity] else [])
        + DecodedEntities(outcomes[1..])
  }

  /** After a run in which every record settled, every file counts as completed, the progress
      is 1, and the rendered entities are exactly the decoded ones, in index order. */
  lemma {:induction false} SettledRunAggregates(files: seq<FileInfo>, outcomes: seq<Outcome>, lo: int, hi: int)
    requires |files| == |outcomes|
    requires forall i :: 0 <= i < |files| ==> Settled(files[i], outcomes[i], lo, hi)
    ensures CompletedDownloadsCount(files) == |files|
    ensures |files| > 0 ==> DownloadProgress(files) == 1.0
    ensures RenderedEntities(files) == DecodedEntities(outcomes)
  {
    forall i | 0 <= i < |files| ensures IsComplete(files[i]) {
      SettledMeaning(files[i], outcomes[i], lo, hi);
    }
    CountWhereAll(files, IsComplete);
    if files != [] {
      Fraction(|files|, |files|);
      SettledMeaning(files[0], outcomes[0], lo, hi);
      SettledRunAggregates(files[1..], outcomes[1..], lo, hi);
    }
  }

  /** A freshly initialised or reset list: nothing completed, progress 0, nothing rendered and
      nothing downloading. */
  lemma FreshAggregates(files: seq<FileInfo>)
    requires forall i :: 0 <= i < |files| ==> IsFresh(files[i])
    ensures CompletedDownloadsCount(files) == 0 && DownloadProgress(files) == 0.0
    ensures RenderedEntities(files) == []
    ensures CountWhere(files, IsDownloading) == 0
  {
    CountWhereNone(files, IsComplete);
    CountWhereNone(files, IsDownloading);
    if files != [] {
      Fraction(0, |files|);
    }
  }

  // ---------------------------------------------------------------------------------------
  // The file-ready notifications of a run

  /** The `usdzFileReady` notifications posted while completing `indices` in order: one for each
      file whose bytes arrived, whether or not decoding then succeeded. */
  function ReadyFor(indices: seq<nat>, outcomes: seq<Outcome>): seq<Notice>
  {
    if indices == [] then []
    else
      var i := indices[0];
      (if i < |outcomes| && outcomes[i].Fetched? then [FileReady(i)] else [])
        + ReadyFor(indices[1..], outcomes)
  }

  /** The notifications posted along a task-group trace. */
  function ReadyNotices(t: seq<Action>, outcomes: seq<Outcome>): seq<Notice>
  {
    ReadyFor(Finishes(t), outcomes)
  }

  lemma {:induction false} ReadyForConcat(a: seq<nat>, b: seq<nat>, outcomes: seq<Outcome>)
    ensures ReadyFor(a + b, outcomes) == ReadyFor(a, outcomes) + ReadyFor(b, outcomes)
  {
    if a == [] {
      assert a + b == b;
    } else {
      assert (a + b)[1..] == a[1..] + b;
      ReadyForConcat(a[1..], b, outcomes);
    }
  }

  lemma ReadyNoticesConcat(a: seq<Action>, b: seq<Action>, outcomes: seq<Outcome>)
    ensures ReadyNotices(a + b, outcomes) == ReadyNotices(a, outcomes) + ReadyNotices(b, outcomes)
  {
    StartsConcat(a, b);
    ReadyForConcat(Finishes(a), Finishes(b), outcomes);
  }

  lemma ReadyNoticesOne(i: nat, j: nat, outcomes: seq<Outcome>)
    ensures ReadyNotices([Finish(i)], outcomes)
      == if i < |outcomes| && outcomes[i].Fetched? then [FileReady(i)] else []
    ensures ReadyNotices([Start(j)], outcomes) == []
  {
    HeadActions(i, j);
    assert [i][1..] == [];
    assert ReadyFor([i], outcomes)
      == (if i < |outcomes| && outcomes[i].Fetched? then [FileReady(i)] else []) + ReadyFor([], outcomes);
    assert Starts([Start(j)]) == [j] && Finishes([Start(j)]) == [] by {
      assert [Start(j)][1..] == [];
    }
  }

  /** One turn of the completion loop posts what its completion posts. */
  lemma TurnNotices(count: nat, g: Group, choices: seq<nat>, outcomes: seq<Outcome>)
    requires |g.pending| > 0
    ensures var p := Choice(choices, g.step, |g.pending|);
      ReadyNotices(Turn(count, g, choices), outcomes) == ReadyNotices([Finish(g.pending[p])], outcomes)
  {
    var p := Choice(choices, g.step, |g.pending|);
    ReadyNoticesConcat([Finish(g.pending[p])], [Start(g.next)], outcomes);
    ReadyNoticesOne(g.pending[p], g.next, outcomes);
    assert [Finish(g.pending[p])] + [Start(g.next)] == [Finish(g.pending[p]), Start(g.next)];
  }

  /** A file's ready notification is posted as often as the file completes, if its bytes
      arrived, and never otherwise; no all-complete notification is among them. */
  lemma {:induction false} ReadyForCount(indices: seq<nat>, outcomes: seq<Outcome>, i: nat)
    ensures multiset(ReadyFor(indices, outcomes))[FileReady(i)]
      == if i < |outcomes| && outcomes[i].Fetched? then multiset(indices)[i] else 0
    ensures multiset(ReadyFor(indices, outcomes))[AllComplete] == 0
  {
    if indices != [] {
      ReadyForCount(indices[1..], outcomes, i);
      assert indices == [indices[0]] + indices[1..];
    }
  }

  /** In a run with a positive limit, each file whose bytes arrived gets exactly one ready
      notification and every other file none; with limit 0 there are none. */
  lemma ReadyExactlyOnce(count: nat, limit: nat, choices: seq<nat>, outcomes: seq<Outcome>)
    requires |outcomes| == count
    ensures forall i: nat :: multiset(ReadyNotices(Bounded(count, limit, choices), outcomes))[FileReady(i)]
                           == if limit > 0 && i < count && outcomes[i].Fetched? then 1 else 0
    ensures AllComplete !in ReadyNotices(Bounded(count, limit, choices), outcomes)
  {
    var t := Bounded(count, limit, choices);
    BoundedFinishes(count, limit, choices);
    forall i: nat
      ensures multiset(ReadyNotices(t, outcomes))[FileReady(i)]
           == if limit > 0 && i < count && outcomes[i].Fetched? then 1 else 0
    {
      ReadyForCount(Finishes(t), outcomes, i);
    }
    ReadyForCount(Finishes(t), outcomes, 0);
  }

  /** A run's trace is its start-only prefix followed by the drain, and only the drain posts
      ready notifications. */
  lemma BoundedTrace(count: nat, limit: nat, choices: seq<nat>, outcomes: seq<Outcome>, m: nat, pending: seq<nat>)
    requires m == Admitted(count, limit) && pending == Range(0, m)
    ensures Bounded(count, limit, choices) == StartRange(0, m) + Drain(count, Group(m, pending, 0), choices)
    ensures ReadyNotices(Bounded(count, limit, choices), outcomes)
         == ReadyNotices(Drain(count, Group(m, pending, 0), choices), outcomes)
  {
    StartRangeActions(0, m);
    ReadyNoticesConcat(StartRange(0, m), Drain(count, Group(m, pending, 0), choices), outcomes);
  }

  /** Concatenation is associative. */
  lemma AppendAssoc<T>(a: seq<T>, b: seq<T>, c: seq<T>)
    ensures (a + b) + c == a + (b + c)
  {
  }

  function Max(a: int, b: int): int {
    if a >= b then a else b
  }

  // ---------------------------------------------------------------------------------------
  // The manager

  class Manager {
    var files: seq<FileInfo>
    var currentActiveDownloads: int
    var totalDownloadStartTime: Option<int>
    var totalDownloadEndTime: Option<int>
    var isDownloadingAll: bool
    /** The latest reading of the abstract clock that stands for `Date()`. */
    var clock: int
    /** The task-group actions performed so far. */
    ghost var tasks: seq<Action>
    /** The notifications posted so far. */
    ghost var notices: seq<Notice>

    /** The shared counter counts exactly the records that are downloading. */
    ghost predicate Valid()
      reads this
    {
      currentActiveDownloads == CountWhere(files, IsDownloading)
    }

    /** `init(urls:)`: one fresh record per URL, in the same order; record `i` has identity `i`. */
    constructor (urls: seq<string>)
      ensures |files| == |urls|
      ensures forall i :: 0 <= i < |urls| ==> files[i] == Fresh(i, urls[i])
      ensures currentActiveDownloads == 0 && !isDownloadingAll
      ensures totalDownloadStartTime == None && totalDownloadEndTime == None
      ensures tasks == [] && notices == [] && Valid()
    {
      files := seq(|urls|, i requires 0 <= i < |urls| => Fresh(i, urls[i]));
      currentActiveDownloads := 0;
      totalDownloadStartTime := None;
      totalDownloadEndTime := None;
      isDownloadingAll := false;
      clock := 0;
      tasks := [];
      notices := [];
      new;
      FreshAggregates(files);
    }

    /** `totalDownloadDuration`. */
    function TotalDownloadDuration(): (d: Option<int>)
      reads this
      ensures d.Some? <==> totalDownloadStartTime.Some? && totalDownloadEndTime.Some?
      ensures d.Some? ==> totalDownloadStartTime.value + d.value == totalDownloadEndTime.value
    {
      Elapsed(totalDownloadStartTime, totalDownloadEndTime)
    }

    /** `totalFilesCount`, which bounds `completedDownloadsCount`. */
    function TotalFilesCount(): (n: nat)
      reads this
      ensures CompletedDownloadsCount(files) <= n
      ensures n == 0 <==> files == []
    {
      |files|
    }

    /** `Date()`: a reading later than every earlier one. */
    method Now() returns (t: int)
      modifies this`clock
      ensures clock == old(clock) + 1 && t == clock
    {
      clock := clock + 1;
      t := clock;
    }

    /** `resetAllFileStates`: every record back to its fresh state, keeping its identity. No
        record is left downloading while the counter is not touched, so the counter invariant
        holds afterwards exactly when the counter is 0, as the run prologues then set it. */
    method ResetAllFileStates()
      modifies this`files
      ensures |files| == |old(files)|
      ensures forall i :: 0 <= i < |files| ==> files[i] == Fresh(old(files)[i].id, old(files)[i].url)
      ensures Valid() <==> currentActiveDownloads == 0
    {
      for index := 0 to |files|
        invariant |files| == |old(files)|
        invariant forall i :: 0 <= i < index ==> files[i] == Fresh(old(files)[i].id, old(files)[i].url)
        invariant forall i :: index <= i < |files| ==> files[i] == old(files)[i]
      {
        files := files[index := files[index].(
          downloadStartTime := None,
          downloadEndTime := None,
          renderStartTime := None,
          renderEndTime := None,
          fileSize := 0,
          isDownloaded := false,
          isRendered := false,
          isDownloading := false,
          entity := None,
          error := None)];
      }
      FreshAggregates(files);
    }

    /** The entry of `downloadFile`: the record is marked downloading, its start time is read
        and the shared counter is incremented. */
    method BeginDownload(index: nat)
      requires Valid() && index < |files| && !files[index].isDownloading
      modifies this`files, this`clock, this`currentActiveDownloads, this`tasks
      ensures files == old(files)[index := Began(old(files)[index], clock)]
      ensures clock == old(clock) + 1
      ensures currentActiveDownloads == old(currentActiveDownloads) + 1
      ensures tasks == old(tasks) + [Start(index)]
      ensures Valid()
    {
      ghost var before := files;
      var now := Now();
      files := files[index := files[index].(isDownloading := true, downloadStartTime := Some(now))];
      currentActiveDownloads := currentActiveDownloads + 1;
      tasks := tasks + [Start(index)];
      assert files == before[index := files[index]];
      CountWhereUpdate(before, index, files[index], IsDownloading);
    }

    /** `createEntity(from:at:)`: the render start is read; on success the entity is stored and
        marked rendered, on failure the error is recorded; the render end is read; in both cases
        a ready notification is posted. */
    method CreateEntity(index: nat, decode: DecodeOutcome)
      requires index < |files|
      modifies this`files, this`clock, this`notices
      ensures files == old(files)[index := Rendered(old(files)[index], decode, old(clock))]
      ensures clock == old(clock) + 2
      ensures notices == old(notices) + [FileReady(index)]
      ensures Valid() <==> old(Valid())
    {
      ghost var before := files;
      var start := Now();
      var f := files[index].(renderStartTime := Some(start));
      match decode {
        case Decoded(e) =>
          f := f.(entity := Some(e), isRendered := true);
          var end := Now();
          f := f.(renderEndTime := Some(end));
        case DecodeFailed(m) =>
          f := f.(error := Some(m));
          var end := Now();
          f := f.(renderEndTime := Some(end));
      }
      files := files[index := f];
      notices := notices + [FileReady(index)];
      CountWhereUpdate(before, index, f, IsDownloading);
    }

    /** The rest of `downloadFile`, after its entry: its three exits (invalid address, failed
        transfer, bytes received and then decoded) each clear the downloading flag and decrement
        the counter once. Since the record was downloading, the counter is at least one, so the
        `max(0, ...)` clamp never takes effect. */
    method FinishDownload(index: nat, outcome: Outcome)
      requires Valid() && index < |files| && files[index].isDownloading
      modifies this`files, this`clock, this`currentActiveDownloads, this`tasks, this`notices
      ensures files == old(files)[index := Finished(old(files)[index], outcome, old(clock))]
      ensures clock == old(clock) + ClockReadings(outcome)
      ensures currentActiveDownloads == old(currentActiveDownloads) - 1
      ensures tasks == old(tasks) + [Finish(index)]
      ensures notices == old(notices) + if outcome.Fetched? then [FileReady(index)] else []
      ensures Valid()
    {
      ghost var before := files;
      CountWhereNone(files, IsDownloading);
      assert currentActiveDownloads >= 1;
      match outcome {
        case InvalidUrl =>
          files := files[index := files[index].(error := Some(InvalidUrlMessage), isDownloading := false)];
          currentActiveDownloads := Max(0, currentActiveDownloads - 1);
          CountWhereUpdate(before, index, files[index], IsDownloading);
        case TransferFailed(m) =>
          var f := files[index].(error := Some(m));
          var end := Now();
          files := files[index := f.(downloadEndTime := Some(end), isDownloading := false)];
          currentActiveDownloads := Max(0, currentActiveDownloads - 1);
          CountWhereUpdate(before, index, files[index], IsDownloading);
        case Fetched(byteCount, decode) =>
          var end := Now();
          files := files[index := files[index].(downloadEndTime := Some(end), fileSize := byteCount,
                                                isDownloaded := true, isDownloading := false)];
          currentActiveDownloads := Max(0, currentActiveDownloads - 1);
          CountWhereUpdate(before, index, files[index], IsDownloading);
          CreateEntity(index, decode);
      }
      tasks := tasks + [Finish(index)];
    }

    /** `downloadFile(at:)`: an index past the end changes nothing; otherwise only
        `files[index]` changes, and the counter is back where it was. */
    method DownloadFile(index: nat, outcome: Outcome)
      requires Valid() && (index < |files| ==> !files[index].isDownloading)
      modifies this`files, this`clock, this`currentActiveDownloads, this`tasks, this`notices
      ensures |old(files)| <= index ==>
        && files == old(files) && clock == old(clock)
        && currentActiveDownloads == old(currentActiveDownloads)
        && tasks == old(tasks) && notices == old(notices)
      ensures index < |old(files)| ==>
        && files == old(files)[index := Finished(Began(old(files)[index], old(clock) + 1), outcome, old(clock) + 1)]
        && clock == old(clock) + 1 + ClockReadings(outcome)
        && currentActiveDownloads == old(currentActiveDownloads)
        && tasks == old(tasks) + [Start(index), Finish(index)]
        && notices == old(notices) + if outcome.Fetched? then [FileReady(index)] else []
      ensures Valid()
    {
      if index >= |files| {
        return;
      }
      BeginDownload(index);
      FinishDownload(index, outcome);
    }

    /** The state of a run that started at clock reading `t0` with the reset records `reset`:
        the indices from `next` on are untouched, those in `inFlight` (distinct, in start order)
        are running, the other started ones have settled, and the counter counts the in-flight
        tasks. */
    ghost predicate Midrun(t0: int, next: nat, inFlight: seq<nat>, outcomes: seq<Outcome>, reset: seq<FileInfo>)
      reads this
    {
      && |files| == |reset| == |outcomes| && next <= |files|
      && t0 <= clock
      && currentActiveDownloads == |inFlight|
      && (forall k :: 0 <= k < |inFlight| ==> inFlight[k] < next)
      && Distinct(inFlight)
      && (forall i :: 0 <= i < |reset| ==> IsFresh(reset[i]))
      && (forall i :: 0 <= i < |files| ==> files[i].id == reset[i].id && files[i].url == reset[i].url)
      && (forall i :: next <= i < |files| ==> files[i] == reset[i])
      && (forall i :: 0 <= i < next && i in inFlight ==> Running(files[i], t0, clock))
      && (forall i :: 0 <= i < next && i !in inFlight ==> Settled(files[i], outcomes[i], t0, clock))
    }

    /** `taskGroup.addTask { await self.downloadFile(at: next) }`, up to the task's first
        suspension. */
    method StartTask(ghost t0: int, next: nat, ghost inFlight: seq<nat>, ghost outcomes: seq<Outcome>,
                     ghost reset: seq<FileInfo>)
      requires Valid() && Midrun(t0, next, inFlight, outcomes, reset) && next < |files|
      modifies this`files, this`clock, this`currentActiveDownloads, this`tasks
      ensures Valid() && Midrun(t0, next + 1, inFlight + [next], outcomes, reset)
      ensures tasks == old(tasks) + [Start(next)]
    {
      BeginDownload(next);
      forall i | 0 <= i < next && i !in inFlight
        ensures Settled(files[i], outcomes[i], t0, clock)
      {
        SettledLater(files[i], outcomes[i], t0, old(clock), clock);
      }
    }

    /** `taskGroup.next()` returning because the task of `inFlight[p]` has run to its end. */
    method AwaitTask(ghost t0: int, next: nat, inFlight: seq<nat>, p: nat, outcomes: seq<Outcome>,
                     ghost reset: seq<FileInfo>)
      requires Valid() && Midrun(t0, next, inFlight, outcomes, reset) && p < |inFlight|
      modifies this`files, this`clock, this`currentActiveDownloads, this`tasks, this`notices
      ensures Valid() && Midrun(t0, next, Remove(inFlight, p), outcomes, reset)
      ensures tasks == old(tasks) + [Finish(inFlight[p])]
      ensures notices == old(notices) + ReadyNotices([Finish(inFlight[p])], outcomes)
    {
      var index := inFlight[p];
      ghost var rest := Remove(inFlight, p);
      RemoveDistinct(inFlight, p);
      FinishedSettles(files[index], outcomes[index], t0, clock);
      FinishDownload(index, outcomes[index]);
      ReadyNoticesOne(index, 0, outcomes);
      forall i | 0 <= i < next && i !in rest && i != index
        ensures Settled(files[i], outcomes[i], t0, clock)
      {
        SettledLater(files[i], outcomes[i], t0, old(clock), clock);
      }
    }

    /** One turn of the completion loop: the task chosen by `choices` at `step` completes and,
        if an index is left, its task is started. */
    method CompleteOne(next: nat, inFlight: seq<nat>, step: nat, choices: seq<nat>, outcomes: seq<Outcome>,
                       ghost t0: int, ghost reset: seq<FileInfo>)
      returns (next': nat, inFlight': seq<nat>)
      requires Valid() && Midrun(t0, next, inFlight, outcomes, reset) && |inFlight| > 0
      modifies this`files, this`clock, this`currentActiveDownloads, this`tasks, this`notices
      ensures Valid() && Midrun(t0, next', inFlight', outcomes, reset) && |files| == |old(files)|
      ensures Group(next', inFlight', step + 1) == Advance(|files|, Group(next, inFlight, step), choices)
      ensures tasks == old(tasks) + Turn(|files|, Group(next, inFlight, step), choices)
      ensures notices == old(notices) + ReadyNotices(Turn(|files|, Group(next, inFlight, step), choices), outcomes)
    {
      var p := Choice(choices, step, |inFlight|);
      TurnNotices(|files|, Group(next, inFlight, step), choices, outcomes);
      AwaitTask(t0, next, inFlight, p, outcomes, reset);
      next' := next;
      inFlight' := Remove(inFlight, p);
      if next < |files| {
        StartTask(t0, next, inFlight', outcomes, reset);
        inFlight' := inFlight' + [next];
        next' := next + 1;
      }
    }

    /** The `while let _ = await taskGroup.next()` loop of the bounded run: whenever a task
        completes, the next unstarted index (if any) is started. In the unlimited run it is
        the implicit wait at the end of `withTaskGroup`, entered with nothing left to start. */
    method AwaitGroup(next0: nat, inFlight0: seq<nat>, choices: seq<nat>, outcomes: seq<Outcome>,
                      ghost t0: int, ghost reset: seq<FileInfo>)
      returns (next: nat)
      requires Valid() && Midrun(t0, next0, inFlight0, outcomes, reset)
      modifies this`files, this`clock, this`currentActiveDownloads, this`tasks, this`notices
      ensures Valid() && Midrun(t0, next, [], outcomes, reset)
      ensures (next0 < |files| ==> |inFlight0| > 0) ==> next == |files|
      ensures |inFlight0| == 0 ==> next == next0
      ensures tasks == old(tasks) + Drain(|files|, Group(next0, inFlight0, 0), choices)
      ensures notices == old(notices) + ReadyNotices(Drain(|files|, Group(next0, inFlight0, 0), choices), outcomes)
    {
      var n := |files|;
      next := next0;
      var inFlight := inFlight0;
      var step := 0;
      ghost var done: seq<Action> := [];
      while |inFlight| > 0
        invariant Valid() && Midrun(t0, next, inFlight, outcomes, reset) && |files| == n
        invariant next0 <= next
        invariant (next0 < n ==> |inFlight0| > 0) ==> (next < n ==> |inFlight| > 0)
        invariant |inFlight0| == 0 ==> next == next0 && |inFlight| == 0
        invariant done + Drain(n, Group(next, inFlight, step), choices)
               == Drain(n, Group(next0, inFlight0, 0), choices)
        invariant tasks == old(tasks) + done
        invariant notices == old(notices) + ReadyNotices(done, outcomes)
        decreases 2 * (n - next) + |inFlight|
      {
        ghost var g := Group(next, inFlight, step);
        ghost var head := Turn(n, g, choices);
        ghost var rest := Drain(n, Advance(n, g, choices), choices);
        DrainTurn(n, g, choices);
        AppendAssoc(done, head, rest);
        ReadyNoticesConcat(done, head, outcomes);
        AppendAssoc(old(tasks), done, head);
        AppendAssoc(old(notices), ReadyNotices(done, outcomes), ReadyNotices(head, outcomes));
        next, inFlight := CompleteOne(next, inFlight, step, choices, outcomes, t0, reset);
        done := done + head;
        step := step + 1;
      }
      assert Drain(n, Group(next, inFlight, step), choices) == [];
      assert done == Drain(n, Group(next0, inFlight0, 0), choices);
    }

    /** What both run-all methods leave behind, given the records `before` and the clock
        `clock0` on entry: the same files, a finished run whose start and end were read after
        `clock0`, no task in flight, and every record either settled within the run (when
        tasks were started) or still reset. */
    ghost predicate RunFinished(before: seq<FileInfo>, clock0: int, outcomes: seq<Outcome>, started: bool)
      reads this
    {
      && |files| == |before| == |outcomes|
      && (forall i :: 0 <= i < |files| ==> files[i].id == before[i].id && files[i].url == before[i].url)
      && totalDownloadStartTime.Some? && totalDownloadEndTime.Some?
      && clock0 < totalDownloadStartTime.value < totalDownloadEndTime.value == clock
      && TotalDownloadDuration() == Some(totalDownloadEndTime.value - totalDownloadStartTime.value)
      && !isDownloadingAll && currentActiveDownloads == 0 && Valid()
      && (forall i :: 0 <= i < |files| ==>
            if started then Settled(files[i], outcomes[i], totalDownloadStartTime.value, clock)
            else IsFresh(files[i]))
    }

    /** The `for index in files.indices { taskGroup.addTask ... }` loop of
        `startDownloadingAll`. */
    method StartEvery(outcomes: seq<Outcome>, ghost t0: int, ghost reset: seq<FileInfo>)
      returns (inFlight: seq<nat>)
      requires Valid() && Midrun(t0, 0, [], outcomes, reset)
      modifies this`files, this`clock, this`currentActiveDownloads, this`tasks
      ensures Valid() && Midrun(t0, |files|, inFlight, outcomes, reset) && |files| == |old(files)|
      ensures inFlight == Range(0, |files|)
      ensures tasks == old(tasks) + StartRange(0, |files|)
    {
      inFlight := [];
      for index := 0 to |files|
        invariant Valid() && Midrun(t0, index, inFlight, outcomes, reset) && |files| == |old(files)|
        invariant inFlight == Range(0, index)
        invariant tasks == old(tasks) + StartRange(0, index)
      {
        StartTask(t0, index, inFlight, outcomes, reset);
        RangeSnoc(0, index);
        inFlight := inFlight + [index];
      }
    }

    /** The `for _ in 0..<min(maxConcurrentDownloads, indices.count)` loop of
        `startDownloadingAllWithLimit`, whose guard `currentIndex < indices.count` always
        holds there. */
    method StartInitial(m: nat, outcomes: seq<Outcome>, ghost t0: int, ghost reset: seq<FileInfo>)
      returns (currentIndex: nat, inFlight: seq<nat>)
      requires m <= |files| && Valid() && Midrun(t0, 0, [], outcomes, reset)
      modifies this`files, this`clock, this`currentActiveDownloads, this`tasks
      ensures Valid() && Midrun(t0, m, inFlight, outcomes, reset) && |files| == |old(files)|
      ensures currentIndex == m && inFlight == Range(0, m)
      ensures tasks == old(tasks) + StartRange(0, m)
    {
      currentIndex := 0;
      inFlight := [];
      for slot := 0 to m
        invariant currentIndex == slot
        invariant Valid() && Midrun(t0, currentIndex, inFlight, outcomes, reset) && |files| == |old(files)|
        invariant inFlight == Range(0, currentIndex)
        invariant tasks == old(tasks) + StartRange(0, currentIndex)
      {
        if currentIndex < |files| {
          StartTask(t0, currentIndex, inFlight, outcomes, reset);
          RangeSnoc(0, currentIndex);
          inFlight := inFlight + [currentIndex];
          currentIndex := currentIndex + 1;
        }
      }
    }

    /** The prologue shared by both run-all methods: the run's start time is read, its end time
        cleared, the run flagged, every record reset and the counter zeroed. */
    method BeginRun(ghost outcomes: seq<Outcome>)
      requires |outcomes| == |files|
      modifies this`files, this`clock, this`currentActiveDownloads, this`totalDownloadStartTime,
        this`totalDownloadEndTime, this`isDownloadingAll
      ensures clock == old(clock) + 1 && totalDownloadStartTime == Some(clock)
      ensures totalDownloadEndTime == None && isDownloadingAll
      ensures |files| == |old(files)|
      ensures forall i :: 0 <= i < |files| ==> files[i] == Fresh(old(files)[i].id, old(files)[i].url)
      ensures currentActiveDownloads == 0 && Valid()
      ensures Midrun(clock, 0, [], outcomes, files)
    {
      var now := Now();
      totalDownloadStartTime := Some(now);
      totalDownloadEndTime := None;
      isDownloadingAll := true;
      ResetAllFileStates();
      currentActiveDownloads := 0;
      FreshAggregates(files);
    }

    /** The epilogue shared by both run-all methods: the end time is read, the run flag cleared
        and the all-complete notification posted. Entered with no task in flight and either
        every index or none started, it leaves a finished run. */
    method EndRun(ghost before: seq<FileInfo>, ghost clock0: int, ghost t0: int, ghost next: nat,
                  ghost outcomes: seq<Outcome>, ghost reset: seq<FileInfo>, ghost started: bool)
      requires Valid() && Midrun(t0, next, [], outcomes, reset)
      requires next == if started then |files| else 0
      requires |before| == |reset|
      requires forall i :: 0 <= i < |reset| ==> reset[i].id == before[i].id && reset[i].url == before[i].url
      requires totalDownloadStartTime == Some(t0) && clock0 < t0 <= clock
      modifies this`clock, this`totalDownloadEndTime, this`isDownloadingAll, this`notices
      ensures clock == old(clock) + 1 && totalDownloadEndTime == Some(clock)
      ensures notices == old(notices) + [AllComplete]
      ensures RunFinished(before, clock0, outcomes, started)
    {
      var now := Now();
      totalDownloadEndTime := Some(now);
      isDownloadingAll := false;
      notices := notices + [AllComplete];
      forall i | 0 <= i < |files| && started ensures Settled(files[i], outcomes[i], t0, clock) {
        assert Settled(files[i], outcomes[i], t0, old(clock));
        SettledLater(files[i], outcomes[i], t0, old(clock), clock);
      }
    }

    /** `startDownloadingAll`: every index is started at once, then the group is drained in the
        chosen completion order. */
    method StartDownloadingAll(choices: seq<nat>, outcomes: seq<Outcome>)
      requires |outcomes| == |files|
      modifies this
      ensures RunFinished(old(files), old(clock), outcomes, true)
      ensures tasks == old(tasks) + Bounded(|files|, |files|, choices)
      ensures notices == old(notices) + ReadyNotices(Bounded(|files|, |files|, choices), outcomes) + [AllComplete]
    {
      BeginRun(outcomes);
      ghost var t0 := clock;
      ghost var reset := files;
      var next := RunEvery(choices, outcomes, t0, reset);
      EndRun(old(files), old(clock), t0, next, outcomes, reset, true);
    }

    /** The task group of `startDownloadingAll`: every index is added at once, then the group
        waits for all of them, in the chosen completion order. */
    method RunEvery(choices: seq<nat>, outcomes: seq<Outcome>, ghost t0: int, ghost reset: seq<FileInfo>)
      returns (next: nat)
      requires Valid() && Midrun(t0, 0, [], outcomes, reset)
      modifies this`files, this`clock, this`currentActiveDownloads, this`tasks, this`notices
      ensures Valid() && Midrun(t0, next, [], outcomes, reset)
      ensures next == |files|
      ensures tasks == old(tasks) + Bounded(|files|, |files|, choices)
      ensures notices == old(notices) + ReadyNotices(Bounded(|files|, |files|, choices), outcomes)
    {
      var inFlight := StartEvery(outcomes, t0, reset);
      next := AwaitGroup(|files|, inFlight, choices, outcomes, t0, reset);
      BoundedTrace(|files|, |files|, choices, outcomes, |files|, inFlight);
      AppendAssoc(old(tasks), StartRange(0, |files|), Drain(|files|, Group(|files|, inFlight, 0), choices));
    }

    /** The task group of `startDownloadingAllWithLimit`: the first `min(limit, count)` indices
        are started, then the group is drained, starting the next index after each completion. */
    method RunGroup(limit: nat, choices: seq<nat>, outcomes: seq<Outcome>, ghost t0: int, ghost reset: seq<FileInfo>)
      returns (next: nat)
      requires Valid() && Midrun(t0, 0, [], outcomes, reset)
      modifies this`files, this`clock, this`currentActiveDownloads, this`tasks, this`notices
      ensures Valid() && Midrun(t0, next, [], outcomes, reset)
      ensures next == if limit > 0 then |files| else 0
      ensures tasks == old(tasks) + Bounded(|files|, limit, choices)
      ensures notices == old(notices) + ReadyNotices(Bounded(|files|, limit, choices), outcomes)
    {
      var m := Admitted(|files|, limit);
      var currentIndex, inFlight := StartInitial(m, outcomes, t0, reset);
      assert if limit > 0 then (m < |files| ==> |inFlight| > 0) else |inFlight| == 0;
      next := AwaitGroup(currentIndex, inFlight, choices, outcomes, t0, reset);
      BoundedTrace(|files|, limit, choices, outcomes, m, inFlight);
      AppendAssoc(old(tasks), StartRange(0, m), Drain(|files|, Group(m, inFlight, 0), choices));
    }

    /** `startDownloadingAllWithLimit(maxConcurrentDownloads:)`: the first
        `min(maxConcurrentDownloads, count)` indices are started, then each completion starts
        the next index. A negative limit traps on the range `0..<min(...)`. */
    method StartDownloadingAllWithLimit(maxConcurrentDownloads: int, choices: seq<nat>, outcomes: seq<Outcome>)
      requires 0 <= maxConcurrentDownloads
      requires |outcomes| == |files|
      modifies this
      ensures RunFinished(old(files), old(clock), outcomes, maxConcurrentDownloads > 0)
      ensures tasks == old(tasks) + Bounded(|files|, maxConcurrentDownloads, choices)
      ensures notices == old(notices)
        + ReadyNotices(Bounded(|files|, maxConcurrentDownloads, choices), outcomes) + [AllComplete]
    {
      BeginRun(outcomes);
      ghost var t0 := clock;
      ghost var reset := files;
      var next := RunGroup(maxConcurrentDownloads, choices, outcomes, t0, reset);
      EndRun(old(files), old(clock), t0, next, outcomes, reset, maxConcurrentDownloads > 0);
    }
  }
}
