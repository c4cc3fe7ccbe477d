/** The per-file record of the download manager (`USDZFileInfo`) and the changes the download
    task makes to it. Readings of `Date()` are integers of an abstract clock. */
module FileRecord {
  import opened Wrappers

  /** Handle of a decoded RealityKit entity; the entity itself is not modelled. */
  datatype Entity = Entity(handle: nat)

  /** What writing the temporary file and loading the entity from it yields. */
  datatype DecodeOutcome = Decoded(entity: Entity) | DecodeFailed(message: string)

  /** What the outside world makes of one file's download: `URL(string:)` rejects the address,
      the transfer throws (with its `localizedDescription`), or it delivers `byteCount` bytes,
      which are then decoded. */
  datatype Outcome =
    | InvalidUrl
    | TransferFailed(message: string)
    | Fetched(byteCount: nat, decode: DecodeOutcome)

  const InvalidUrlMessage: string := "Invalid URL"

  /** `USDZFileInfo`. The `UUID` identifier is an abstract natural number. */
  datatype FileInfo = FileInfo(
    id: nat,
    url: string,
    downloadStartTime: Option<int>,
    downloadEndTime: Option<int>,
    renderStartTime: Option<int>,
    renderEndTime: Option<int>,
    fileSize: nat,
    isDownloaded: bool,
    isRendered: bool,
    isDownloading: bool,
    entity: Option<Entity>,
    error: Option<string>)

  /** A record as `init` creates it and as the reset leaves it. */
  function Fresh(id: nat, url: string): FileInfo {
    FileInfo(id, url, None, None, None, None, 0, false, false, false, None, None)
  }

  /** A record that is fresh apart from its identity. */
  predicate IsFresh(f: FileInfo) {
    f == Fresh(f.id, f.url)
  }

  /** `end.timeIntervalSince(start)` when both readings are present. */
  function Elapsed(start: Option<int>, end: Option<int>): (d: Option<int>)
    ensures d.Some? <==> start.Some? && end.Some?
    ensures d.Some? ==> d.value == end.value - start.value
  {
    match (start, end)
    case (Some(s), Some(e)) => Some(e - s)
    case _ => None
  }

  /** `downloadDuration`: known once both download readings are, and then their difference. */
  function DownloadDuration(f: FileInfo): (d: Option<int>)
    ensures d.Some? <==> f.downloadStartTime.Some? && f.downloadEndTime.Some?
    ensures d.Some? ==> f.downloadStartTime.value + d.value == f.downloadEndTime.value
  {
    Elapsed(f.downloadStartTime, f.downloadEndTime)
  }

  /** `renderDuration`: known once both render readings are, and then their difference. */
  function RenderDuration(f: FileInfo): (d: Option<int>)
    ensures d.Some? <==> f.renderStartTime.Some? && f.renderEndTime.Some?
    ensures d.Some? ==> f.renderStartTime.value + d.value == f.renderEndTime.value
  {
    Elapsed(f.renderStartTime, f.renderEndTime)
  }

  /** The filter of `completedDownloadsCount`: downloaded, or carrying an error. */
  predicate IsComplete(f: FileInfo) {
    f.isDownloaded || f.error.Some?
  }

  predicate IsDownloading(f: FileInfo) {
    f.isDownloading
  }

  // ---------------------------------------------------------------------------------------
  // The steps of a download task. `t` is the clock before the step; each `Date()` reading
  // advances it by one.

  /** Entering `downloadFile`: the record is marked downloading and its start time read. */
  function Began(f: FileInfo, t: int): FileInfo {
    f.(isDownloading := true, downloadStartTime := Some(t))
  }

  /** `createEntity`: the render start is read, then the entity is set or the error recorded,
      and the render end is read. */
  function Rendered(f: FileInfo, d: DecodeOutcome, t: int): FileInfo {
    var g := f.(renderStartTime := Some(t + 1));
    match d
    case Decoded(e) => g.(entity := Some(e), isRendered := true, renderEndTime := Some(t + 2))
    case DecodeFailed(m) => g.(error := Some(m), renderEndTime := Some(t + 2))
  }

  /** The rest of `downloadFile`, on each of its three exits. */
  function Finished(f: FileInfo, o: Outcome, t: int): FileInfo {
    match o
    case InvalidUrl => f.(error := Some(InvalidUrlMessage), isDownloading := false)
    case TransferFailed(m) =>
      f.(error := Some(m), downloadEndTime := Some(t + 1), isDownloading := false)
    case Fetched(b, d) =>
      var g := f.(downloadEndTime := Some(t + 1), fileSize := b, isDownloaded := true,
                  isDownloading := false);
      Rendered(g, d, t + 1)
  }

  /** How many times the rest of `downloadFile` reads the clock. */
  function ClockReadings(o: Outcome): nat {
    match o
    case InvalidUrl => 0
    case TransferFailed(_) => 1
    case Fetched(_, _) => 3
  }

  // ---------------------------------------------------------------------------------------
  // The states a record passes through during one run whose clock readings lie in (lo, hi].

  /** Started after `lo` and still in flight: fresh except for the start time and the flag. */
  predicate Running(f: FileInfo, lo: int, hi: int) {
    && f.downloadStartTime.Some?
    && lo < f.downloadStartTime.value <= hi
    && f == Began(Fresh(f.id, f.url), f.downloadStartTime.value)
  }

  /** Finished with outcome `o`: every field is what that outcome leaves, and the timestamps
      that are set increase strictly and lie in (lo, hi]. */
  predicate Settled(f: FileInfo, o: Outcome, lo: int, hi: int) {
    && f.downloadStartTime.Some?
    && lo < f.downloadStartTime.value <= hi
    && match o
       case InvalidUrl =>
         f == Fresh(f.id, f.url).(downloadStartTime := f.downloadStartTime,
                                  error := Some(InvalidUrlMessage))
       case TransferFailed(m) =>
         && f.downloadEndTime.Some?
         && f.downloadStartTime.value < f.downloadEndTime.value <= hi
         && f == Fresh(f.id, f.url).(downloadStartTime := f.downloadStartTime,
                                     downloadEndTime := f.downloadEndTime, error := Some(m))
       case Fetched(b, d) =>
         && f.downloadEndTime.Some? && f.renderStartTime.Some? && f.renderEndTime.Some?
         && f.downloadStartTime.value < f.downloadEndTime.value < f.renderStartTime.value
         && f.renderStartTime.value < f.renderEndTime.value <= hi
         && f == Fresh(f.id, f.url).(
                   downloadStartTime := f.downloadStartTime,
                   downloadEndTime := f.downloadEndTime,
                   renderStartTime := f.renderStartTime,
                   renderEndTime := f.renderEndTime,
                   fileSize := b,
                   isDownloaded := true,
                   isRendered := d.Decoded?,
                   entity := if d.Decoded? then Some(d.entity) else None,
                   error := if d.DecodeFailed? then Some(d.message) else None)
  }

  /** A fresh record that is started at a reading after `lo` is running. */
  lemma BeganRuns(f: FileInfo, lo: int, t: int)
    requires IsFresh(f) && lo < t
    ensures Running(Began(f, t), lo, t)
  {
  }

  /** Finishing a running record with outcome `o` settles it with that outcome. */
  lemma FinishedSettles(f: FileInfo, o: Outcome, lo: int, t: int)
    requires Running(f, lo, t)
    ensures Settled(Finished(f, o, t), o, lo, t + ClockReadings(o))
  {
  }

  /** What a settled record tells its observers: it is counted as complete and no longer
      downloading; it has a download duration unless the address was invalid and a render
      duration exactly when the bytes arrived, both positive and within the run; it holds an
      entity exactly when decoding succeeded, and an error exactly when it did not, whether it
      stopped before the bytes arrived or decoding them failed. */
  lemma SettledMeaning(f: FileInfo, o: Outcome, lo: int, hi: int)
    requires Settled(f, o, lo, hi)
    ensures IsComplete(f) && !f.isDownloading
    ensures DownloadDuration(f).Some? <==> !o.InvalidUrl?
    ensures DownloadDuration(f).Some? ==> 0 < DownloadDuration(f).value < hi - lo
    ensures RenderDuration(f).Some? <==> o.Fetched?
    ensures RenderDuration(f).Some? ==> 0 < RenderDuration(f).value < hi - lo
    ensures f.isDownloaded <==> o.Fetched?
    ensures f.fileSize == if o.Fetched? then o.byteCount else 0
    ensures f.isRendered <==> f.entity.Some?
    ensures f.isRendered <==> o.Fetched? && o.decode.Decoded?
    ensures f.error.Some? <==> !(o.Fetched? && o.decode.Decoded?)
  {
  }

  /** Settled stays settled as the clock moves on. */
  lemma SettledLater(f: FileInfo, o: Outcome, lo: int, hi: int, hi': int)
    requires Settled(f, o, lo, hi) && hi <= hi'
    ensures Settled(f, o, lo, hi')
  {
  }
}
