/** The catalog table and the recordings volume as one object: the part of the repository
  * (src/recordings/repositories/recording.repository.ts) and of the file system that segment
  * ingest and the catalog use. */
module RecordingStore {
  import opened Options
  import opened RecordingTypes
  import opened CatalogueProtocol
  import Ordering

  /** A file on the volume. `sound` is what the container check of the validator finds. */
  datatype SegmentFile = SegmentFile(mtimeMs: int, sizeBytes: nat, sound: bool)

  const MAX_TIMELINE_SEGMENTS := 3_000

  predicate InRange(
    rows: map<RecordingId, Recording>, cameraId: CameraId, from: int, to: int, status: SegmentStatus, id: RecordingId)
  {
    && id in rows && rows[id].cameraId == cameraId && rows[id].status == status
    && rows[id].startTime < to && rows[id].endTime > from
  }

  function AllInRange(
    rows: map<RecordingId, Recording>, cameraId: CameraId, from: int, to: int, status: SegmentStatus)
    : (all: set<RecordingId>)
    ensures all <= rows.Keys
  {
    set id | id in rows && InRange(rows, cameraId, from, to, status, id)
  }

  /** `found` lists some of `ids`, each once and oldest first, and none of the others is older. */
  ghost predicate OldestOf(rows: map<RecordingId, Recording>, ids: set<RecordingId>, found: seq<RecordingId>)
    requires ids <= rows.Keys
  {
    && (forall i :: 0 <= i < |found| ==> found[i] in ids)
    && (forall i, j :: 0 <= i < j < |found| ==>
          found[i] != found[j] && rows[found[i]].startTime <= rows[found[j]].startTime)
    && (forall i, id :: 0 <= i < |found| && id in ids && id !in found ==>
          rows[found[i]].startTime <= rows[id].startTime)
  }

  lemma NoneTaken(rows: map<RecordingId, Recording>, ids: set<RecordingId>)
    requires ids <= rows.Keys
    ensures OldestOf(rows, ids, [])
  {
  }

  lemma OneMoreTaken(rows: map<RecordingId, Recording>, ids: set<RecordingId>, found: seq<RecordingId>, id: RecordingId)
    requires ids <= rows.Keys && OldestOf(rows, ids, found) && id in ids && id !in found
    requires forall other :: other in ids && other !in found ==> rows[id].startTime <= rows[other].startTime
    ensures OldestOf(rows, ids, found + [id])
  {
  }

  lemma OldestExists(rows: map<RecordingId, Recording>, ids: set<RecordingId>) returns (oldest: RecordingId)
    requires ids <= rows.Keys && ids != {}
    ensures oldest in ids && forall other :: other in ids ==> rows[oldest].startTime <= rows[other].startTime
  {
    var starts := set id | id in ids :: rows[id].startTime;
    var one :| one in ids;
    assert rows[one].startTime in starts;
    var least := Ordering.Least(starts);
    oldest :| oldest in ids && rows[oldest].startTime == least;
    assert forall other :: other in ids ==> rows[other].startTime in starts;
  }

  class Store {
    var rows: map<RecordingId, Recording>
    var nextId: nat
    var files: map<SegmentPath, SegmentFile>
    /** The newest file ever started, per camera. */
    ghost var newest: map<CameraId, int>

    constructor ()
      ensures rows == map[] && nextId == 0 && files == map[] && newest == map[]
    {
      rows, nextId, files, newest := map[], 0, map[], map[];
    }

    /** The protocol state while no scan and no delete is running. */
    ghost function Quiet(watermarks: map<CameraId, Watermark>): Catalogue
      reads this
    {
      Catalogue(files.Keys, newest, rows, nextId, watermarks, None, [])
    }

    method FindRecordingByFilePath(path: SegmentPath) returns (found: bool)
      ensures found <==> Catalogued(rows, path)
    {
      found := exists id :: id in rows && rows[id].FilePath() == path;
    }

    method FindLatestStartTime(cameraId: CameraId) returns (latest: Watermark)
      ensures IsNewestRow(rows, cameraId, latest)
    {
      latest := Nothing;
      var todo := rows.Keys;
      while todo != {}
        invariant todo <= rows.Keys
        invariant forall id :: id in rows && id !in todo && rows[id].cameraId == cameraId ==>
                                 Covers(latest, rows[id].startTime)
        invariant latest.Upto? ==>
                    exists id :: id in rows && rows[id].cameraId == cameraId && rows[id].startTime == latest.at
      {
        var id :| id in todo;
        todo := todo - {id};
        if rows[id].cameraId == cameraId && (latest == Nothing || latest.at < rows[id].startTime) {
          latest := Upto(rows[id].startTime);
        }
      }
    }

    method UpdateRecordingStatus(id: RecordingId, status: SegmentStatus)
      modifies this`rows
      ensures rows == WithStatus(old(rows), id, status)
    {
      if id in rows {
        rows := rows[id := rows[id].(status := status)];
      }
    }

    /** Throws when the row is gone, and when the database fails. */
    method DeleteRecording(id: RecordingId, databaseFails: bool) returns (ok: bool)
      modifies this`rows
      ensures ok <==> id in old(rows) && !databaseFails
      ensures rows == if ok then old(rows) - {id} else old(rows)
    {
      ok := id in rows && !databaseFails;
      if ok {
        rows := rows - {id};
      }
    }

    /** orderBy startTime asc, take `limit`. */
    method TakeOldest(ids: set<RecordingId>, limit: nat) returns (found: seq<RecordingId>)
      requires ids <= rows.Keys
      ensures OldestOf(rows, ids, found) && |found| <= limit
      ensures |found| < limit ==> forall id :: id in ids ==> id in found
    {
      hide OldestOf;
      found := [];
      var todo := ids;
      NoneTaken(rows, ids);
      while todo != {} && |found| < limit
        invariant todo <= ids && |found| <= limit && OldestOf(rows, ids, found)
        invariant forall id :: id in ids ==> (id in found <==> id !in todo)
      {
        ghost var oldest := OldestExists(rows, todo);
        var id :| id in todo && forall other :: other in todo ==> rows[id].startTime <= rows[other].startTime;
        OneMoreTaken(rows, ids, found, id);
        found := found + [id];
        todo := todo - {id};
      }
    }

    /** findRecordingsByStatus: the oldest `limit` rows with the status. */
    method FindRecordingsByStatus(status: SegmentStatus, limit: nat) returns (found: seq<RecordingId>)
      ensures |found| <= limit
      ensures var all := set id | id in rows && rows[id].status == status;
              OldestOf(rows, all, found) && (|found| < limit ==> forall id :: id in all ==> id in found)
    {
      var all := set id | id in rows && rows[id].status == status;
      found := TakeOldest(all, limit);
    }

    /** findRecordingsInRange: rows of a camera with a status that overlap the open interval, oldest first; beyond
      * 3000 of them the newest are left out. */
    method FindRecordingsInRange(cameraId: CameraId, from: int, to: int, status: SegmentStatus)
      returns (found: seq<RecordingId>)
      ensures |found| <= 3_000
      ensures var all := AllInRange(rows, cameraId, from, to, status);
              OldestOf(rows, all, found) && (|found| < 3_000 ==> forall id :: id in all ==> id in found)
    {
      found := TakeOldest(AllInRange(rows, cameraId, from, to, status), MAX_TIMELINE_SEGMENTS);
    }

    /** The camera's directory, sorted by name. */
    method ReadNames(cameraId: CameraId) returns (names: seq<int>)
      ensures Listing(files.Keys, cameraId, names)
    {
      names := [];
      var todo := set path | path in files && path.cameraId == cameraId :: path.start;
      ghost var all := todo;
      while todo != {}
        invariant todo <= all
        invariant Ascending(names)
        invariant forall start :: start in names <==> start in all && start !in todo
        invariant forall i, start :: 0 <= i < |names| && start in todo ==> names[i] < start
        decreases todo
      {
        ghost var least := Ordering.Least(todo);
        var start :| start in todo && forall other :: other in todo ==> start <= other;
        names := names + [start];
        todo := todo - {start};
      }
      forall start
        ensures start in names <==> SegmentPath(cameraId, start) in files.Keys
      {
        if start in all {
          var path :| path in files && path.cameraId == cameraId && path.start == start;
          assert path == SegmentPath(cameraId, start);
        }
        if SegmentPath(cameraId, start) in files {
          assert SegmentPath(cameraId, start).start in all;
        }
      }
    }
  }
}
