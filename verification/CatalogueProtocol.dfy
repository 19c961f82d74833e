/** The life of a recording as a protocol: MediaMTX adds files, a watermarked scan catalogues them,
  * two-phase deletes and crash recovery remove them. Every step between two awaits of
  * src/recordings/segment-ingest.ts and src/recordings/recording-catalog.ts is one step here, and
  * steps of the scan, of any number of deletes and of a crash interleave freely. */
module CatalogueProtocol {
  import opened Options
  import opened RecordingTypes

  /** Start of the newest handled segment; the source's -Infinity is `Nothing`. */
  datatype Watermark = Nothing | Upto(at: int)

  predicate Covers(w: Watermark, start: int) {
    w.Upto? && start <= w.at
  }

  datatype Stage =
    | Loading                   // names read, watermark not yet
    | Choosing                  // about to look at the next name
    | Validating                // the next name has no row; about to write one
    | Settling                  // the next name is dealt with; about to advance the watermark

  /** The running scan of one camera. `top` is the newest file at the time the names were read. */
  datatype Scan = Scan(cameraId: CameraId, names: seq<int>, top: Watermark, watermark: Watermark, stage: Stage)

  datatype Phase = Requested | Marked | Gone | Finished

  /** One running delete, with the id and path it was handed. */
  datatype Deletion = Deletion(id: RecordingId, path: SegmentPath, phase: Phase)

  datatype Catalogue = Catalogue(
    disk: set<SegmentPath>,
    newest: map<CameraId, int>,
    rows: map<RecordingId, Recording>,
    nextId: nat,
    watermarks: map<CameraId, Watermark>,
    scan: Option<Scan>,
    deletions: seq<Deletion>)

  const EMPTY := Catalogue({}, map[], map[], 0, map[], None, [])

  datatype Step =
    | Record(path: SegmentPath)                        // MediaMTX starts a new file
    | Vanish(path: SegmentPath)                        // a file is removed by another hand
    | ReadNames(cameraId: CameraId, names: seq<int>)
    | LoadWatermark(watermark: Watermark)
    | SkipName                                         // at or below the watermark, or removed since
    | Lookup                                           // findRecordingByFilePath
    | ValidationFindsNoFile
    | Insert(row: Recording)                           // createRecording
    | AdvanceWatermark
    | EndScan                                          // last name, a file still being written, or an exception
    | Request(id: RecordingId)                         // a delete is started for a row that was read
    | Mark(k: nat, written: bool)  // DELETE_PENDING; `written` is false when the update failed silently
    | Unlink(k: nat)
    | FindNoFile(k: nat)                               // ENOENT
    | Refuse(k: nat, garbage: bool)  // EPERM, EROFS, EBUSY; the row becomes GARBAGE if that is written
    | DropRow(k: nat)
    | DropFails(k: nat, garbage: bool)
    | Resume(id: RecordingId)                          // reconciliation picks up a DELETE_PENDING row
    | Keep(id: RecordingId)                            // motion makes a buffered row AVAILABLE
    | Crash

  // ---------------------------------------------------------------------
  // Steps
  // ---------------------------------------------------------------------

  ghost predicate Catalogued(rows: map<RecordingId, Recording>, path: SegmentPath) {
    exists id :: id in rows && rows[id].FilePath() == path
  }

  ghost predicate Ascending(names: seq<int>) {
    forall i, j :: 0 <= i < j < |names| ==> names[i] < names[j]
  }

  /** `names` is the sorted directory listing of the camera. */
  ghost predicate Listing(disk: set<SegmentPath>, cameraId: CameraId, names: seq<int>) {
    && Ascending(names)
    && forall start :: start in names <==> SegmentPath(cameraId, start) in disk
  }

  /** `w` is what findLatestStartTime answers for the camera. */
  ghost predicate IsNewestRow(rows: map<RecordingId, Recording>, cameraId: CameraId, w: Watermark) {
    && (forall id :: id in rows && rows[id].cameraId == cameraId ==> Covers(w, rows[id].startTime))
    && (w.Upto? ==> exists id :: id in rows && rows[id].cameraId == cameraId && rows[id].startTime == w.at)
  }

  function Newest(newest: map<CameraId, int>, cameraId: CameraId): Watermark {
    if cameraId in newest then Upto(newest[cameraId]) else Nothing
  }

  ghost predicate Running(s: Catalogue, k: nat, phase: Phase) {
    k < |s.deletions| && s.deletions[k].phase == phase
  }

  ghost predicate AtName(s: Catalogue, stage: Stage) {
    s.scan.Some? && s.scan.value.stage == stage && s.scan.value.names != []
  }

  /** The file the scan is looking at. */
  function Current(scan: Scan): SegmentPath
    requires scan.names != []
  {
    SegmentPath(scan.cameraId, scan.names[0])
  }

  ghost predicate Enabled(s: Catalogue, step: Step) {
    match step
    case Record(path) => path.cameraId in s.newest ==> s.newest[path.cameraId] < path.start
    case Vanish(path) => path in s.disk
    case ReadNames(cameraId, names) => s.scan.None? && Listing(s.disk, cameraId, names)
    case LoadWatermark(w) =>
      && s.scan.Some? && s.scan.value.stage == Loading
      && var cameraId := s.scan.value.cameraId;
         if cameraId in s.watermarks then w == s.watermarks[cameraId] else IsNewestRow(s.rows, cameraId, w)
    case SkipName =>
      && AtName(s, Choosing)
      && (Covers(s.scan.value.watermark, s.scan.value.names[0]) || Current(s.scan.value) !in s.disk)
    case Lookup =>
      && AtName(s, Choosing)
      && !Covers(s.scan.value.watermark, s.scan.value.names[0]) && Current(s.scan.value) in s.disk
    case ValidationFindsNoFile => AtName(s, Validating) && Current(s.scan.value) !in s.disk
    case Insert(row) =>
      && AtName(s, Validating) && row.id == s.nextId && row.FilePath() == Current(s.scan.value)
      && Visible(row.status)
    case AdvanceWatermark => AtName(s, Settling)
    case EndScan => s.scan.Some?
    case Request(id) => id in s.rows
    case Mark(k, _) => Running(s, k, Requested)
    case Unlink(k) => Running(s, k, Marked) && s.deletions[k].path in s.disk
    case FindNoFile(k) => Running(s, k, Marked) && s.deletions[k].path !in s.disk
    case Refuse(k, _) => Running(s, k, Marked)
    case DropRow(k) => Running(s, k, Gone)
    case DropFails(k, _) => Running(s, k, Gone)
    case Resume(id) => id in s.rows && s.rows[id].status == DELETE_PENDING
    case Keep(id) => true
    case Crash => true
  }

  /** updateRecordingStatus: nothing happens when the row is gone. */
  function WithStatus(rows: map<RecordingId, Recording>, id: RecordingId, status: SegmentStatus)
    : map<RecordingId, Recording>
  {
    if id in rows then rows[id := rows[id].(status := status)] else rows
  }

  function WithPhase(s: Catalogue, k: nat, phase: Phase): seq<Deletion>
    requires k < |s.deletions|
  {
    s.deletions[k := s.deletions[k].(phase := phase)]
  }

  ghost function Apply(s: Catalogue, step: Step): Catalogue
    requires Enabled(s, step)
  {
    match step
    case Record(path) => s.(disk := s.disk + {path}, newest := s.newest[path.cameraId := path.start])
    case Vanish(path) => s.(disk := s.disk - {path})
    case ReadNames(cameraId, names) =>
      s.(scan := Some(Scan(cameraId, names, Newest(s.newest, cameraId), Nothing, Loading)))
    case LoadWatermark(w) =>
      s.(watermarks := s.watermarks[s.scan.value.cameraId := w],
         scan := Some(s.scan.value.(watermark := w, stage := Choosing)))
    case SkipName => s.(scan := Some(s.scan.value.(names := s.scan.value.names[1..])))
    case Lookup =>
      s.(scan := Some(s.scan.value.(
                        stage := if Catalogued(s.rows, Current(s.scan.value)) then Settling else Validating)))
    case ValidationFindsNoFile => s.(scan := Some(s.scan.value.(stage := Settling)))
    case Insert(row) =>
      s.(rows := s.rows[row.id := row], nextId := s.nextId + 1, scan := Some(s.scan.value.(stage := Settling)))
    case AdvanceWatermark =>
      var scan := s.scan.value;
      s.(watermarks := s.watermarks[scan.cameraId := Upto(scan.names[0])],
         scan := Some(scan.(names := scan.names[1..], stage := Choosing)))
    case EndScan => s.(scan := None)
    case Request(id) => s.(deletions := s.deletions + [Deletion(id, s.rows[id].FilePath(), Requested)])
    case Mark(k, written) =>
      s.(rows := if written then WithStatus(s.rows, s.deletions[k].id, DELETE_PENDING) else s.rows,
         deletions := WithPhase(s, k, Marked))
    case Unlink(k) => s.(disk := s.disk - {s.deletions[k].path}, deletions := WithPhase(s, k, Gone))
    case FindNoFile(k) => s.(deletions := WithPhase(s, k, Gone))
    case Refuse(k, garbage) =>
      s.(rows := if garbage then WithStatus(s.rows, s.deletions[k].id, GARBAGE) else s.rows,
         deletions := WithPhase(s, k, Finished))
    case DropRow(k) => s.(rows := s.rows - {s.deletions[k].id}, deletions := WithPhase(s, k, Finished))
    case DropFails(k, garbage) =>
      s.(rows := if garbage then WithStatus(s.rows, s.deletions[k].id, GARBAGE) else s.rows,
         deletions := WithPhase(s, k, Finished))
    case Resume(id) => s.(deletions := s.deletions + [Deletion(id, s.rows[id].FilePath(), Marked)])
    case Keep(id) =>
      s.(rows := if id in s.rows then s.rows[id := s.rows[id].(status := AVAILABLE, tier := EVENT)] else s.rows)
    case Crash => s.(watermarks := map[], scan := None, deletions := [])
  }

  // ---------------------------------------------------------------------
  // What every reachable state satisfies
  // ---------------------------------------------------------------------

  /** No path has two rows. */
  ghost predicate UniquePaths(rows: map<RecordingId, Recording>) {
    forall i, j :: i in rows && j in rows && rows[i].FilePath() == rows[j].FilePath() ==> i == j
  }

  /** Every AVAILABLE, BUFFERED or QUARANTINED row's file is on disk. */
  ghost predicate VisibleOnDisk(s: Catalogue) {
    forall id :: id in s.rows && Visible(s.rows[id].status) ==> s.rows[id].FilePath() in s.disk
  }

  /** Every file on disk at or below a watermark has a row. */
  ghost predicate WatermarksSound(s: Catalogue) {
    forall path :: path in s.disk && path.cameraId in s.watermarks ==>
                     (Covers(s.watermarks[path.cameraId], path.start) ==> Catalogued(s.rows, path))
  }

  /** A file without a row is newer than every row of its camera. */
  ghost predicate NoGap(s: Catalogue) {
    forall path, id :: path in s.disk && id in s.rows && s.rows[id].cameraId == path.cameraId ==>
                         (path.start <= s.rows[id].startTime ==> Catalogued(s.rows, path))
  }

  /** No file, row, watermark or running operation is about a recording that was never made. */
  ghost predicate OnlyRecorded(s: Catalogue) {
    && (forall path :: path in s.disk ==> Covers(Newest(s.newest, path.cameraId), path.start))
    && (forall id :: id in s.rows ==>
          id < s.nextId && Covers(Newest(s.newest, s.rows[id].cameraId), s.rows[id].startTime))
    && (forall c :: c in s.watermarks && s.watermarks[c].Upto? ==> Covers(Newest(s.newest, c), s.watermarks[c].at))
  }

  ghost predicate ScanSound(s: Catalogue, scan: Scan) {
    && Ascending(scan.names)
    && (scan.top.Upto? ==> Covers(Newest(s.newest, scan.cameraId), scan.top.at))
    && (scan.watermark.Upto? ==> Covers(Newest(s.newest, scan.cameraId), scan.watermark.at))
    && (forall start :: start in scan.names ==> Covers(scan.top, start))
    && (scan.stage == Loading ==> scan.watermark == Nothing)
    && (forall path :: path in s.disk && path.cameraId == scan.cameraId && Covers(scan.top, path.start) ==>
                         Catalogued(s.rows, path) || path.start in scan.names)
    && (forall path :: path in s.disk && path.cameraId == scan.cameraId && Covers(scan.watermark, path.start) ==>
                         Catalogued(s.rows, path))
    && (scan.stage == Validating ==>
          scan.names != [] && !Catalogued(s.rows, Current(scan)))
    && (scan.stage == Settling ==>
          scan.names != [] && (Current(scan) in s.disk ==> Catalogued(s.rows, Current(scan))))
  }

  ghost predicate DeletionSound(s: Catalogue, d: Deletion) {
    && d.id < s.nextId
    && Covers(Newest(s.newest, d.path.cameraId), d.path.start)
    && (d.id in s.rows ==> s.rows[d.id].FilePath() == d.path)
    && (d.path in s.disk ==> d.id in s.rows)
    && (d.phase == Marked && d.id in s.rows ==> !Visible(s.rows[d.id].status))
    && (d.phase == Gone ==> d.path !in s.disk)
  }

  ghost predicate DeletionsSound(s: Catalogue) {
    forall k :: 0 <= k < |s.deletions| ==> DeletionSound(s, s.deletions[k])
  }

  ghost predicate Inv(s: Catalogue) {
    && UniquePaths(s.rows)
    && VisibleOnDisk(s)
    && WatermarksSound(s)
    && NoGap(s)
    && OnlyRecorded(s)
    && (s.scan.Some? ==> ScanSound(s, s.scan.value))
    && DeletionsSound(s)
  }

  /** Which steps keep the catalogue sound. All of them, except: another hand removing the file of a visible row;
    * a row written for a file removed since its validation; a delete that goes on after its mark on a visible row
    * was lost; and a motion keep of a row whose file is gone or about to be unlinked. */
  ghost predicate Safe(s: Catalogue, step: Step)
    requires Enabled(s, step)
  {
    match step
    case Vanish(path) => forall id :: id in s.rows && s.rows[id].FilePath() == path ==> !Visible(s.rows[id].status)
    case Insert(row) => row.FilePath() in s.disk
    case Mark(k, written) =>
      written || (s.deletions[k].id in s.rows ==> !Visible(s.rows[s.deletions[k].id].status))
    case Keep(id) =>
      id in s.rows ==>
        && s.rows[id].FilePath() in s.disk
        && forall k :: 0 <= k < |s.deletions| && s.deletions[k].id == id ==> s.deletions[k].phase != Marked
    case _ => true
  }
}
