/** Catalog rows and the files they stand for (src/recordings/recording.types.ts). */
module RecordingTypes {
  type CameraId = string
  type RecordingId = nat

  datatype SegmentStatus = AVAILABLE | BUFFERED | QUARANTINED | DELETE_PENDING | GARBAGE | MISSING

  datatype RetentionTier = CONTINUOUS | EVENT | INCIDENT | PROTECTED

  /** How a camera records; ALWAYS is the source's mode CONTINUOUS. Only MOTION_ONLY footage is buffered. */
  datatype RecordingMode = ALWAYS | SCHEDULED | MANUAL_OFF | MOTION_ONLY

  /** A segment file. Names carry the start time and sort chronologically, so the start stands for the name. */
  datatype SegmentPath = SegmentPath(cameraId: CameraId, start: int)

  /** Times are in milliseconds. */
  datatype Recording = Recording(
    id: RecordingId,
    cameraId: CameraId,
    startTime: int,
    endTime: int,
    sizeBytes: nat,
    status: SegmentStatus,
    tier: RetentionTier,
    isProtected: bool)
  {
    function FilePath(): SegmentPath {
      SegmentPath(cameraId, startTime)
    }
  }

  /** Statuses under which the catalog claims a usable file. */
  predicate Visible(status: SegmentStatus) {
    status == AVAILABLE || status == BUFFERED || status == QUARANTINED
  }

  function Max(a: int, b: int): int {
    if a < b then b else a
  }
}
