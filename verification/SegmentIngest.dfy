/** Segment ingest (src/recordings/segment-ingest.ts): the watermarked scan, the fate of each
  * file, motion, and expiry of the Motion Buffer. */
module SegmentIngest {
  import opened Options
  import opened Ordering
  import opened RecordingTypes
  import opened CatalogueProtocol
  import opened CatalogueSafety
  import opened RecordingStore
  import opened RecordingCatalog
  import opened MotionBuffer

  const MIN_SEGMENT_BYTES := 1024
  const MAX_BUFFERED_SCAN := 5_000

  /** A segment lasts from its name's time to its last write, at least a tenth of a second. */
  function EndOf(start: int, mtimeMs: int): int {
    if mtimeMs - start < 100 then start + 100 else mtimeMs
  }

  /** The row a finished file gets. */
  function RowFor(
    w: MotionWindow, id: RecordingId, path: SegmentPath, file: SegmentFile, mode: RecordingMode, motions: set<Motion>)
    : (row: Recording)
  {
    var row := Recording(id, path.cameraId, path.start, EndOf(path.start, file.mtimeMs), file.sizeBytes,
                         QUARANTINED, CONTINUOUS, false);
    if file.sound && file.sizeBytes >= MIN_SEGMENT_BYTES then Judged(w, row, mode, motions) else row
  }

  // ---------------------------------------------------------------------
  // A whole scan, as steps of the protocol
  // ---------------------------------------------------------------------

  ghost function Scanning(s: Catalogue, cameraId: CameraId, names: seq<int>, top: Watermark, w: Watermark): Catalogue {
    s.(scan := Some(Scan(cameraId, names, top, w, Choosing)))
  }

  lemma StartScan(s: Catalogue, cameraId: CameraId, names: seq<int>, w: Watermark)
    requires Inv(s) && s.scan.None? && Listing(s.disk, cameraId, names)
    requires if cameraId in s.watermarks then w == s.watermarks[cameraId] else IsNewestRow(s.rows, cameraId, w)
    ensures Inv(Scanning(s.(watermarks := s.watermarks[cameraId := w]), cameraId, names, Newest(s.newest, cameraId), w))
  {
    hide Inv;
    ReadNamesKeeps(s, cameraId, names);
    LoadWatermarkKeeps(Apply(s, ReadNames(cameraId, names)), w);
  }

  lemma SkipOne(s: Catalogue, cameraId: CameraId, names: seq<int>, top: Watermark, w: Watermark)
    requires names != [] && Inv(Scanning(s, cameraId, names, top, w)) && Covers(w, names[0])
    ensures Inv(Scanning(s, cameraId, names[1..], top, w))
    ensures SegmentPath(cameraId, names[0]) in s.disk ==> Catalogued(s.rows, SegmentPath(cameraId, names[0]))
  {
    SkipNameKeeps(Scanning(s, cameraId, names, top, w));
  }

  ghost function Advanced(s: Catalogue, cameraId: CameraId, names: seq<int>): Catalogue
    requires names != []
  {
    s.(watermarks := s.watermarks[cameraId := Upto(names[0])])
  }

  lemma FindOne(s: Catalogue, cameraId: CameraId, names: seq<int>, top: Watermark, w: Watermark)
    requires names != [] && Inv(Scanning(s, cameraId, names, top, w)) && !Covers(w, names[0])
    requires SegmentPath(cameraId, names[0]) in s.disk && Catalogued(s.rows, SegmentPath(cameraId, names[0]))
    ensures Inv(Scanning(Advanced(s, cameraId, names), cameraId, names[1..], top, w))
  {
    hide Inv;
    var s0 := Scanning(s, cameraId, names, top, w);
    LookupKeeps(s0);
    AdvanceWatermarkKeeps(Apply(s0, Lookup));
  }

  lemma WriteOne(s: Catalogue, cameraId: CameraId, names: seq<int>, top: Watermark, w: Watermark, row: Recording)
    requires names != [] && Inv(Scanning(s, cameraId, names, top, w)) && !Covers(w, names[0])
    requires SegmentPath(cameraId, names[0]) in s.disk && !Catalogued(s.rows, SegmentPath(cameraId, names[0]))
    requires row.id == s.nextId && row.FilePath() == SegmentPath(cameraId, names[0]) && Visible(row.status)
    ensures Inv(Scanning(Advanced(s.(rows := s.rows[row.id := row], nextId := s.nextId + 1), cameraId, names),
                         cameraId, names[1..], top, w))
  {
    hide Inv;
    var s0 := Scanning(s, cameraId, names, top, w);
    LookupKeeps(s0);
    var s1 := Apply(s0, Lookup);
    InsertKeeps(s1, row);
    AdvanceWatermarkKeeps(Apply(s1, Insert(row)));
  }

  /** `rows` has the old rows, and new ones that are each the proper row of a file on disk. */
  ghost predicate RowsAdded(
    before: map<RecordingId, Recording>, rows: map<RecordingId, Recording>, files: map<SegmentPath, SegmentFile>,
    w: MotionWindow, mode: RecordingMode, motions: set<Motion>, cameraId: CameraId)
  {
    && (forall id :: id in before ==> id in rows && rows[id] == before[id])
    && (forall id :: id in rows && id !in before ==>
          && rows[id].cameraId == cameraId && rows[id].FilePath() in files
          && rows[id] == RowFor(w, id, rows[id].FilePath(), files[rows[id].FilePath()], mode, motions))
  }

  lemma InvMeans(s: Catalogue)
    requires Inv(s)
    ensures UniquePaths(s.rows) && s.nextId !in s.rows
  {
  }

  lemma CataloguedStays(before: map<RecordingId, Recording>, rows: map<RecordingId, Recording>, path: SegmentPath)
    requires forall id :: id in before ==> id in rows && rows[id] == before[id]
    requires Catalogued(before, path)
    ensures Catalogued(rows, path)
  {
    var id :| id in before && before[id].FilePath() == path;
    assert id in rows && rows[id].FilePath() == path;
  }

  lemma CataloguedAllStay(
    before: map<RecordingId, Recording>, rows: map<RecordingId, Recording>, files: map<SegmentPath, SegmentFile>,
    w: MotionWindow, mode: RecordingMode, motions: set<Motion>, cameraId: CameraId, names: seq<int>)
    requires RowsAdded(before, rows, files, w, mode, motions, cameraId)
    requires forall j :: 0 <= j < |names| ==> Catalogued(before, SegmentPath(cameraId, names[j]))
    ensures forall j :: 0 <= j < |names| ==> Catalogued(rows, SegmentPath(cameraId, names[j]))
  {
    forall j | 0 <= j < |names|
      ensures Catalogued(rows, SegmentPath(cameraId, names[j]))
    {
      CataloguedStays(before, rows, SegmentPath(cameraId, names[j]));
    }
  }

  lemma AddedNothing(
    rows: map<RecordingId, Recording>, files: map<SegmentPath, SegmentFile>,
    w: MotionWindow, mode: RecordingMode, motions: set<Motion>, cameraId: CameraId)
    ensures RowsAdded(rows, rows, files, w, mode, motions, cameraId)
  {
  }

  lemma AddedTransitive(
    first: map<RecordingId, Recording>, second: map<RecordingId, Recording>, third: map<RecordingId, Recording>,
    files: map<SegmentPath, SegmentFile>, w: MotionWindow, mode: RecordingMode, motions: set<Motion>,
    cameraId: CameraId)
    requires RowsAdded(first, second, files, w, mode, motions, cameraId)
    requires RowsAdded(second, third, files, w, mode, motions, cameraId)
    ensures RowsAdded(first, third, files, w, mode, motions, cameraId)
  {
  }

  /** What the row of a file has to say: QUARANTINED when the file is unsound or under 1024 bytes; otherwise BUFFERED
    * when motion decides and no motion of the camera is stored within the window around it, and AVAILABLE when not;
    * with tier EVENT when there is such motion; the file's size, and its times, at least a tenth of a second. */
  ghost predicate ProperRow(
    r: Recording, id: RecordingId, cameraId: CameraId, files: map<SegmentPath, SegmentFile>, w: MotionWindow,
    mode: RecordingMode, motions: set<Motion>)
  {
    && r.id == id && r.cameraId == cameraId && SegmentPath(cameraId, r.startTime) in files && !r.isProtected
    && var file := files[SegmentPath(cameraId, r.startTime)];
       var moved := exists m :: m in motions && m.cameraId == cameraId && m.stored.Some?
                                && r.startTime - w.post <= m.stored.value <= r.endTime + w.pre;
       && r.sizeBytes == file.sizeBytes && r.endTime == Max(file.mtimeMs, r.startTime + 100)
       && (r.status == QUARANTINED <==> !file.sound || file.sizeBytes < 1024)
       && (r.status == QUARANTINED ==> r.tier == CONTINUOUS)
       && (r.status != QUARANTINED ==>
             && r.status == (if mode == MOTION_ONLY && !moved then BUFFERED else AVAILABLE)
             && r.tier == (if moved then EVENT else CONTINUOUS))
  }

  lemma NewRowMeans(
    before: map<RecordingId, Recording>, rows: map<RecordingId, Recording>, files: map<SegmentPath, SegmentFile>,
    w: MotionWindow, mode: RecordingMode, motions: set<Motion>, cameraId: CameraId, id: RecordingId)
    requires RowsAdded(before, rows, files, w, mode, motions, cameraId) && id in rows && id !in before
    ensures ProperRow(rows[id], id, cameraId, files, w, mode, motions)
  {
    var r := rows[id];
    assert r.FilePath() == SegmentPath(cameraId, r.startTime);
    var judged := r.(status := QUARANTINED, tier := CONTINUOUS);
    assert forall m :: Near(w, judged, m) <==>
                         m.cameraId == cameraId && m.stored.Some?
                         && r.startTime - w.post <= m.stored.value <= r.endTime + w.pre;
  }

  lemma LastIsNewest(disk: set<SegmentPath>, cameraId: CameraId, names: seq<int>, path: SegmentPath)
    requires Listing(disk, cameraId, names) && names != []
    requires path == SegmentPath(cameraId, names[|names| - 1])
    ensures forall other :: other in disk && other.cameraId == cameraId ==> other.start <= path.start
  {
    forall other | other in disk && other.cameraId == cameraId
      ensures other.start <= path.start
    {
      assert other == SegmentPath(cameraId, other.start);
      var k :| 0 <= k < |names| && names[k] == other.start;
    }
  }

  class SegmentIngest {
    const store: Store
    const catalog: RecordingCatalog
    var watermarks: map<CameraId, Watermark>
    var window: MotionWindow
    var quietPeriodMs: nat
    var clock: int
    /** The persisted motion events. */
    var motions: set<Motion>

    constructor (catalog: RecordingCatalog, clock: int)
      ensures this.catalog == catalog && store == catalog.store && this.clock == clock
      ensures watermarks == map[] && motions == {} && quietPeriodMs == 15_000
      ensures window == MotionWindow(10_000, 30_000, 30_000)
    {
      this.catalog, store, this.clock := catalog, catalog.store, clock;
      watermarks, motions, quietPeriodMs := map[], {}, 15_000;
      window := MotionWindow(10_000, 30_000, 30_000);
    }

    /** The buffers are taken as given between 2 and 60 s before, 5 and 300 s after; outside, the nearest bound is. */
    method SetMotionWindow(preBufferSeconds: int, postBufferSeconds: int)
      modifies this`window
      ensures window.grace == old(window).grace
      ensures Nearest(window.pre, preBufferSeconds * 1000, 2_000, 60_000)
      ensures Nearest(window.post, postBufferSeconds * 1000, 5_000, 300_000)
    {
      window := window.(pre := Clamp(2, preBufferSeconds, 60) * 1000, post := Clamp(5, postBufferSeconds, 300) * 1000);
    }

    ghost predicate Valid()
      reads this, store, catalog
    {
      store == catalog.store && Inv(store.Quiet(watermarks))
    }

    /** The newest file may still be being written. */
    predicate StillWritten(path: SegmentPath)
      requires path in store.files
      reads this, store
    {
      clock - store.files[path].mtimeMs < quietPeriodMs
    }

    /** One uninterrupted scan of a camera's directory. Afterwards every finished file has exactly one row: only the
      * newest file can be without, and only while it may still be written. Rows already there are untouched. A new row
      * is quarantined when its file is unsound or too small; otherwise it is buffered when motion decides and none is
      * stored yet around the segment, and a segment with motion around it has tier EVENT. */
    method ScanCamera(cameraId: CameraId, mode: RecordingMode)
      requires Valid()
      modifies this`watermarks, store`rows, store`nextId
      ensures Valid()
      ensures RowsAdded(old(store.rows), store.rows, store.files, window, mode, motions, cameraId)
      ensures forall id :: id in store.rows && id !in old(store.rows) ==>
                ProperRow(store.rows[id], id, cameraId, store.files, window, mode, motions)
      ensures UniquePaths(store.rows)
      ensures forall path :: path in store.files && path.cameraId == cameraId ==>
                || Catalogued(store.rows, path)
                || (&& clock - store.files[path].mtimeMs < quietPeriodMs
                    && forall other :: other in store.files && other.cameraId == cameraId ==> other.start <= path.start)
      ensures forall c :: c != cameraId ==> (c in watermarks <==> c in old(watermarks))
      ensures forall c :: c in old(watermarks) && c != cameraId ==> watermarks[c] == old(watermarks)[c]
    {
      hide Inv, RowsAdded, Catalogued, ProperRow, UniquePaths;
      var names := store.ReadNames(cameraId);
      var watermark;
      if cameraId in watermarks {
        watermark := watermarks[cameraId];
      } else {
        watermark := store.FindLatestStartTime(cameraId);
      }
      ghost var top := Newest(store.newest, cameraId);
      StartScan(store.Quiet(watermarks), cameraId, names, watermark);
      watermarks := watermarks[cameraId := watermark];
      var handled := ScanNames(cameraId, mode, names, watermark, top);
      QuietKeeps(Scanning(store.Quiet(watermarks), cameraId, names[handled..], top, watermark));
      InvMeans(store.Quiet(watermarks));
      forall id | id in store.rows && id !in old(store.rows) {
        NewRowMeans(old(store.rows), store.rows, store.files, window, mode, motions, cameraId, id);
      }
      forall path | path in store.files && path.cameraId == cameraId
        ensures || Catalogued(store.rows, path)
                || (&& StillWritten(path)
                    && forall other :: other in store.files && other.cameraId == cameraId ==> other.start <= path.start)
      {
        assert path == SegmentPath(cameraId, path.start);
        var j :| 0 <= j < |names| && names[j] == path.start;
        if handled <= j {
          LastIsNewest(store.files.Keys, cameraId, names, path);
        }
      }
    }

    /** The loop of a scan over the names of the directory; stops at a newest file that may still be written. */
    method ScanNames(
      cameraId: CameraId, mode: RecordingMode, names: seq<int>, watermark: Watermark, ghost top: Watermark)
      returns (handled: nat)
      requires forall j :: 0 <= j < |names| ==> SegmentPath(cameraId, names[j]) in store.files
      requires Inv(Scanning(store.Quiet(watermarks), cameraId, names, top, watermark))
      modifies this`watermarks, store`rows, store`nextId
      ensures handled <= |names|
      ensures handled < |names| ==> handled == |names| - 1 && StillWritten(SegmentPath(cameraId, names[handled]))
      ensures Inv(Scanning(store.Quiet(watermarks), cameraId, names[handled..], top, watermark))
      ensures RowsAdded(old(store.rows), store.rows, store.files, window, mode, motions, cameraId)
      ensures forall j :: 0 <= j < handled ==> Catalogued(store.rows, SegmentPath(cameraId, names[j]))
      ensures forall c :: c != cameraId ==> (c in watermarks <==> c in old(watermarks))
      ensures forall c :: c in old(watermarks) ==>
                c in watermarks && (c != cameraId ==> watermarks[c] == old(watermarks)[c])
    {
      hide Inv, RowsAdded, Catalogued;
      assert names[0..] == names;
      AddedNothing(store.rows, store.files, window, mode, motions, cameraId);
      for i := 0 to |names|
        invariant Inv(Scanning(store.Quiet(watermarks), cameraId, names[i..], top, watermark))
        invariant RowsAdded(old(store.rows), store.rows, store.files, window, mode, motions, cameraId)
        invariant forall j :: 0 <= j < i ==> Catalogued(store.rows, SegmentPath(cameraId, names[j]))
        invariant forall c :: c != cameraId ==> (c in watermarks <==> c in old(watermarks))
        invariant forall c :: c in old(watermarks) ==>
                                c in watermarks && (c != cameraId ==> watermarks[c] == old(watermarks)[c])
      {
        assert names[i..][1..] == names[i + 1..];
        var path := SegmentPath(cameraId, names[i]);
        if Covers(watermark, names[i]) {
          SkipOne(store.Quiet(watermarks), cameraId, names[i..], top, watermark);
          continue;
        }
        var hasNewer := i < |names| - 1;
        if !hasNewer && StillWritten(path) {
          return i;
        }
        ghost var before := store.rows;
        ScanFile(path, mode, names[i..], top, watermark);
        AddedTransitive(old(store.rows), before, store.rows, store.files, window, mode, motions, cameraId);
        CataloguedAllStay(before, store.rows, store.files, window, mode, motions, cameraId, names[..i]);
        watermarks := watermarks[cameraId := Upto(names[i])];
      }
      return |names|;
    }

    /** The one catalog row of a finished file: found, or written. */
    method ScanFile(
      path: SegmentPath, mode: RecordingMode,
      ghost names: seq<int>, ghost top: Watermark, ghost watermark: Watermark)
      requires path in store.files && names != [] && path.start == names[0] && !Covers(watermark, names[0])
      requires Inv(Scanning(store.Quiet(watermarks), path.cameraId, names, top, watermark))
      modifies store`rows, store`nextId
      ensures var advanced := Advanced(store.Quiet(watermarks), path.cameraId, names);
              Inv(Scanning(advanced, path.cameraId, names[1..], top, watermark))
      ensures Catalogued(store.rows, path)
      ensures RowsAdded(old(store.rows), store.rows, store.files, window, mode, motions, path.cameraId)
    {
      hide Inv;
      var existing := store.FindRecordingByFilePath(path);
      if existing {
        FindOne(store.Quiet(watermarks), path.cameraId, names, top, watermark);
        return;
      }
      var row := RowFor(window, store.nextId, path, store.files[path], mode, motions);
      WriteOne(store.Quiet(watermarks), path.cameraId, names, top, watermark, row);
      InvMeans(Scanning(store.Quiet(watermarks), path.cameraId, names, top, watermark));
      store.rows := store.rows[row.id := row];
      store.nextId := store.nextId + 1;
      assert row.id in store.rows && store.rows[row.id].FilePath() == path;
    }

    /** A motion event: every buffered segment it touches is kept, and all footage it touches gets the EVENT tier;
      * answers how many buffered segments were kept. Each query stops at 3000 rows: with fewer touched rows none is
      * missed, and with more no row is changed in any other way. */
    method OnMotion(m: Motion) returns (kept: nat)
      requires Valid()
      modifies store`rows
      ensures Valid()
      ensures SomeAfterMotion(window, old(store.rows), store.rows, m)
      ensures |TouchedIds(window, old(store.rows), m)| < 3_000 ==>
                && store.rows == AllAfterMotion(window, old(store.rows), m)
                && kept == |BufferedNear(window, old(store.rows), m)|
    {
      hide Inv, OldestOf, SomeAfterMotion, AllAfterMotion, TouchedIds, BufferedNear, Found;
      ghost var before := store.rows;
      var from, to := m.handled - window.pre, m.handled + window.post;
      var buffered := store.FindRecordingsInRange(m.cameraId, from, to, BUFFERED);
      FoundInRange(before, m.cameraId, from, to, BUFFERED, buffered);
      KeepAll(buffered);
      ghost var middle := store.rows;
      var available := store.FindRecordingsInRange(m.cameraId, from, to, AVAILABLE);
      FoundInRange(middle, m.cameraId, from, to, AVAILABLE, available);
      RaiseTiers(available);
      MotionDone(window, before, middle, store.rows, m, buffered, available);
      MotionKeepsInv(window, old(store.Quiet(watermarks)), store.rows, m);
      assert store.Quiet(watermarks) == old(store.Quiet(watermarks)).(rows := store.rows);
      kept := |buffered|;
    }

    method KeepAll(buffered: seq<RecordingId>)
      requires forall i :: 0 <= i < |buffered| ==> buffered[i] in store.rows
      requires forall i, j :: 0 <= i < j < |buffered| ==> buffered[i] != buffered[j]
      modifies store`rows
      ensures store.rows.Keys == old(store.rows).Keys
      ensures forall id :: id in store.rows ==>
                store.rows[id] == if id in buffered then Kept(old(store.rows)[id]) else old(store.rows)[id]
    {
      for i := 0 to |buffered|
        invariant store.rows.Keys == old(store.rows).Keys
        invariant forall id :: id in store.rows ==>
                    store.rows[id] == if id in buffered[..i] then Kept(old(store.rows)[id]) else old(store.rows)[id]
      {
        var id := buffered[i];
        store.rows := store.rows[id := store.rows[id].(tier := EVENT)];
        store.UpdateRecordingStatus(id, AVAILABLE);
      }
      assert buffered[..|buffered|] == buffered;
    }

    method RaiseTiers(available: seq<RecordingId>)
      requires forall i :: 0 <= i < |available| ==> available[i] in store.rows
      requires forall i, j :: 0 <= i < j < |available| ==> available[i] != available[j]
      modifies store`rows
      ensures store.rows.Keys == old(store.rows).Keys
      ensures forall id :: id in store.rows ==>
                store.rows[id] == if id in available then Tiered(old(store.rows)[id]) else old(store.rows)[id]
    {
      for i := 0 to |available|
        invariant store.rows.Keys == old(store.rows).Keys
        invariant forall id :: id in store.rows ==>
                    store.rows[id] == if id in available[..i] then Tiered(old(store.rows)[id]) else old(store.rows)[id]
      {
        var id := available[i];
        if store.rows[id].tier == CONTINUOUS {
          store.rows := store.rows[id := store.rows[id].(tier := EVENT)];
        }
      }
      assert available[..|available|] == available;
    }

    /** Deletes the buffered segments no motion can still keep, whatever fails: nothing but the expirable segments it
      * picks is touched, and each of these loses its row and file or stays as `RowExpired` says. Unless the scan limit
      * is reached it picks them all, and none is left when every unlink and drop succeeds. The catalogue stays sound
      * if and only if no picked segment met the three failures that leave a visible row without a file. */
    method ExpireBufferedSegments(faults: Faults) returns (ghost picked: set<RecordingId>)
      requires Valid()
      modifies store`rows, store`files
      ensures picked <= ExpirableIds(window, old(store.rows), clock)
      ensures |BufferedIds(old(store.rows))| < 5_000 ==>
                picked == ExpirableIds(window, old(store.rows), clock)
      ensures OthersUntouched(old(store.rows), store.rows, picked)
      ensures AllExpired(old(store.rows), old(store.files), store.rows, store.files, faults, picked)
      ensures Valid() <==> NoneLost(old(store.rows), old(store.files), faults, picked)
      ensures faults.refused == {} && faults.drops == {} && |BufferedIds(old(store.rows))| < 5_000 ==>
                ExpirableIds(window, store.rows, clock) == {}
    {
      hide Inv, OldestOf, OthersUntouched, ExpirableIds, BufferedIds, Expirable, AllExpired, NoneLost, UniquePaths;
      ghost var before, files := store.rows, store.files;
      var cutoff := clock - (window.pre + window.grace);
      var buffered := store.FindRecordingsByStatus(BUFFERED, MAX_BUFFERED_SCAN);
      BufferedFound(before, buffered);
      NothingTouched(before);
      InvMeans(store.Quiet(watermarks));
      NothingExpired(before, files, faults);
      picked := {};
      for i := 0 to |buffered|
        invariant picked <= ExpirableIds(window, before, clock)
        invariant OthersUntouched(before, store.rows, picked)
        invariant AllExpired(before, files, store.rows, store.files, faults, picked)
        invariant NoneLost(before, files, faults, picked) ==> Inv(store.Quiet(watermarks))
        invariant forall j :: i <= j < |buffered| ==> buffered[j] !in picked
        invariant forall j :: 0 <= j < i && buffered[j] in ExpirableIds(window, before, clock) ==> buffered[j] in picked
      {
        var id := buffered[i];
        UntouchedMeans(before, store.rows, picked, id);
        ExpirableMeans(window, before, clock, id);
        if store.rows[id].endTime < cutoff {
          ghost var rows, disk := store.rows, store.files;
          ExpireOne(id, faults);
          UntouchedStep(before, rows, store.rows, picked, id);
          ExpiredStep(before, files, rows, disk, store.rows, store.files, faults, picked, id);
          picked := picked + {id};
        }
      }
      if |BufferedIds(before)| < MAX_BUFFERED_SCAN {
        ExpirableAreBuffered(window, before, clock);
        assert ExpirableIds(window, before, clock) <= picked;
        if faults.refused == {} && faults.drops == {} {
          NoneKept(before, files, store.rows, store.files, faults, picked);
          NoneExpirable(window, before, store.rows, clock, picked);
        }
      }
      if !NoneLost(before, files, faults, picked) {
        LossIsLasting(before, files, store.Quiet(watermarks), store.files, faults, picked);
      }
    }

    /** One expirable segment; a delete that throws is only logged. */
    method ExpireOne(id: RecordingId, faults: Faults)
      requires store == catalog.store && id in store.rows && Visible(store.rows[id].status)
      modifies store`rows, store`files
      ensures OthersUntouched(old(store.rows), store.rows, {id})
      ensures RowExpired(old(store.rows), old(store.files), store.rows, faults, id)
      ensures store.files == old(store.files) - ({old(store.rows)[id].FilePath()} - faults.refused)
      ensures old(Valid()) && !RowLost(old(store.rows), old(store.files), faults, id) ==> Valid()
    {
      hide Inv, OthersUntouched;
      var path := store.rows[id].FilePath();
      if Valid() {
        RowIsHandedOut(store.Quiet(watermarks), id);
      }
      var result := catalog.DeleteSegmentInternal(
        id, path, store.rows[id].sizeBytes, path in faults.refused, faults.Of(id), watermarks);
    }
  }

  // ---------------------------------------------------------------------
  // What expiry makes of its segments
  // ---------------------------------------------------------------------

  /** What fails during an expiry: the unlinks the file system refuses, and the rows whose DELETE_PENDING mark, GARBAGE
    * mark or drop the database does not write. */
  datatype Faults = Faults(
    refused: set<SegmentPath>, marks: set<RecordingId>, garbage: set<RecordingId>, drops: set<RecordingId>)
  {
    function Of(id: RecordingId): Database {
      Database(id in marks, id in garbage, id in drops)
    }
  }

  /** A row whose delete was tried is gone, unless its file could not be removed or its drop failed: then it has the
    * last status that was written. */
  predicate RowExpired(
    before: map<RecordingId, Recording>, files: map<SegmentPath, SegmentFile>, rows: map<RecordingId, Recording>,
    faults: Faults, id: RecordingId)
    requires id in before
  {
    var path := before[id].FilePath();
    if id !in faults.drops && !(path in files && path in faults.refused) then id !in rows
    else
      && id in rows
      && rows[id] == before[id].(status := if path in files && id !in faults.garbage then GARBAGE
                                           else if id !in faults.marks then DELETE_PENDING
                                           else before[id].status)
  }

  predicate RowLost(
    before: map<RecordingId, Recording>, files: map<SegmentPath, SegmentFile>, faults: Faults, id: RecordingId)
    requires id in before
  {
    var path := before[id].FilePath();
    LosesFile(before, files, id, path, path in faults.refused, faults.Of(id))
  }

  /** The paths of the picked rows. */
  function PathsOf(rows: map<RecordingId, Recording>, picked: set<RecordingId>): set<SegmentPath> {
    set id | id in picked && id in rows :: rows[id].FilePath()
  }

  /** Every picked row has expired, and exactly the files of these that could be removed are gone. */
  ghost predicate AllExpired(
    before: map<RecordingId, Recording>, files: map<SegmentPath, SegmentFile>, rows: map<RecordingId, Recording>,
    files': map<SegmentPath, SegmentFile>, faults: Faults, picked: set<RecordingId>)
  {
    && (forall id :: id in picked ==> id in before && RowExpired(before, files, rows, faults, id))
    && files' == files - (PathsOf(before, picked) - faults.refused)
  }

  ghost predicate NoneLost(
    before: map<RecordingId, Recording>, files: map<SegmentPath, SegmentFile>, faults: Faults,
    picked: set<RecordingId>)
  {
    forall id :: id in picked && id in before ==> !RowLost(before, files, faults, id)
  }

  lemma NothingExpired(
    rows: map<RecordingId, Recording>, files: map<SegmentPath, SegmentFile>, faults: Faults)
    ensures AllExpired(rows, files, rows, files, faults, {}) && NoneLost(rows, files, faults, {})
  {
  }

  lemma OnePathMore(before: map<RecordingId, Recording>, picked: set<RecordingId>, id: RecordingId)
    requires UniquePaths(before) && id in before && id !in picked
    ensures before[id].FilePath() !in PathsOf(before, picked)
    ensures PathsOf(before, picked + {id}) == PathsOf(before, picked) + {before[id].FilePath()}
  {
  }

  lemma ExpiredStep(
    before: map<RecordingId, Recording>, files: map<SegmentPath, SegmentFile>, rows: map<RecordingId, Recording>,
    files': map<SegmentPath, SegmentFile>, rows': map<RecordingId, Recording>, files'': map<SegmentPath, SegmentFile>,
    faults: Faults, picked: set<RecordingId>, id: RecordingId)
    requires UniquePaths(before) && id in before && id !in picked && id in rows && rows[id] == before[id]
    requires AllExpired(before, files, rows, files', faults, picked)
    requires OthersUntouched(rows, rows', {id}) && RowExpired(rows, files', rows', faults, id)
    requires files'' == files' - ({rows[id].FilePath()} - faults.refused)
    ensures AllExpired(before, files, rows', files'', faults, picked + {id})
    ensures NoneLost(before, files, faults, picked + {id}) ==>
              NoneLost(before, files, faults, picked) && !RowLost(rows, files', faults, id)
  {
    hide PathsOf, UniquePaths;
    OnePathMore(before, picked, id);
    var path := before[id].FilePath();
    assert path in files' <==> path in files;
    forall other | other in picked + {id}
      ensures other in before && RowExpired(before, files, rows', faults, other)
    {
      if other != id {
        assert RowExpired(before, files, rows, faults, other);
      }
    }
    var gone := PathsOf(before, picked);
    assert files'' == files - ((gone + {path}) - faults.refused);
    if NoneLost(before, files, faults, picked + {id}) {
      assert !RowLost(before, files, faults, id);
    }
  }

  /** When every unlink and drop succeeds, no picked row is left. */
  lemma NoneKept(
    before: map<RecordingId, Recording>, files: map<SegmentPath, SegmentFile>, rows: map<RecordingId, Recording>,
    files': map<SegmentPath, SegmentFile>, faults: Faults, picked: set<RecordingId>)
    requires AllExpired(before, files, rows, files', faults, picked)
    requires faults.refused == {} && faults.drops == {}
    ensures forall id :: id in picked ==> id !in rows
  {
  }

  lemma LossIsLasting(
    before: map<RecordingId, Recording>, files: map<SegmentPath, SegmentFile>, s: Catalogue,
    files': map<SegmentPath, SegmentFile>, faults: Faults, picked: set<RecordingId>)
    requires AllExpired(before, files, s.rows, files', faults, picked) && s.disk == files'.Keys
    requires !NoneLost(before, files, faults, picked)
    ensures !Inv(s)
  {
    var id :| id in picked && id in before && RowLost(before, files, faults, id);
    assert RowExpired(before, files, s.rows, faults, id);
    assert before[id].FilePath() in PathsOf(before, picked);
    VisibleWithoutFile(s, id);
  }

  function AllAfterMotion(w: MotionWindow, rows: map<RecordingId, Recording>, m: Motion): map<RecordingId, Recording> {
    map id | id in rows :: AfterMotion(w, rows[id], m)
  }

  /** Each row is as it was, or as the motion makes it. */
  ghost predicate SomeAfterMotion(
    w: MotionWindow, before: map<RecordingId, Recording>, after: map<RecordingId, Recording>, m: Motion)
  {
    && after.Keys == before.Keys
    && forall id :: id in before ==> after[id] == before[id] || after[id] == AfterMotion(w, before[id], m)
  }

  /** The rows a motion's two queries look for. */
  function TouchedIds(w: MotionWindow, rows: map<RecordingId, Recording>, m: Motion): set<RecordingId> {
    set id | id in rows && (rows[id].status == BUFFERED || rows[id].status == AVAILABLE) && Touches(w, rows[id], m)
  }

  /** `value`, or the bound it is beyond. */
  predicate Nearest(result: int, value: int, low: int, high: int) {
    && low <= result <= high
    && (low <= value <= high ==> result == value)
    && (value < low ==> result == low)
    && (high < value ==> result == high)
  }

  function BufferedIds(rows: map<RecordingId, Recording>): set<RecordingId> {
    set id | id in rows && rows[id].status == BUFFERED
  }

  function ExpirableIds(w: MotionWindow, rows: map<RecordingId, Recording>, now: int): set<RecordingId> {
    set id | id in rows && Expirable(w, rows[id], now)
  }

  function BufferedNear(w: MotionWindow, rows: map<RecordingId, Recording>, m: Motion): set<RecordingId> {
    set id | id in rows && rows[id].status == BUFFERED && Touches(w, rows[id], m)
  }

  function IdSet(ids: seq<RecordingId>): set<RecordingId> {
    set id | id in ids
  }

  function Kept(r: Recording): Recording {
    r.(status := AVAILABLE, tier := EVENT)
  }
  function Tiered(r: Recording): Recording {
    if r.tier == CONTINUOUS then r.(tier := EVENT) else r
  }

  lemma {:induction false} DistinctLength(ids: seq<RecordingId>)
    requires forall i, j :: 0 <= i < j < |ids| ==> ids[i] != ids[j]
    ensures |IdSet(ids)| == |ids|
  {
    if ids == [] {
    } else {
      var init, last := ids[..|ids| - 1], ids[|ids| - 1];
      DistinctLength(init);
      assert IdSet(ids) == IdSet(init) + {last};
    }
  }

  lemma BufferedAre(w: MotionWindow, rows: map<RecordingId, Recording>, m: Motion, buffered: seq<RecordingId>)
    requires var all := AllInRange(rows, m.cameraId, m.handled - w.pre, m.handled + w.post, BUFFERED);
             (forall i :: 0 <= i < |buffered| ==> buffered[i] in all) && (forall id :: id in all ==> id in buffered)
    requires forall i, j :: 0 <= i < j < |buffered| ==> buffered[i] != buffered[j]
    ensures |buffered| == |BufferedNear(w, rows, m)|
  {
    DistinctLength(buffered);
    assert IdSet(buffered) == BufferedNear(w, rows, m);
  }

  /** A query that stops at a limit finds everything when there is less than that. */
  lemma FewAreAllFound(all: set<RecordingId>, found: seq<RecordingId>, few: nat)
    requires forall i :: 0 <= i < |found| ==> found[i] in all
    requires forall i, j :: 0 <= i < j < |found| ==> found[i] != found[j]
    requires |all| <= few < MAX_TIMELINE_SEGMENTS
    ensures |found| < MAX_TIMELINE_SEGMENTS
  {
    DistinctLength(found);
    SubsetSize(IdSet(found), all);
  }

  lemma NearAreTouched(
    w: MotionWindow, before: map<RecordingId, Recording>, middle: map<RecordingId, Recording>,
    after: map<RecordingId, Recording>, m: Motion, buffered: seq<RecordingId>, available: seq<RecordingId>)
    requires Looped(before, middle, after, buffered, available)
    requires forall id :: id in buffered ==> id in TouchedIds(w, before, m)
    ensures var from, to := m.handled - w.pre, m.handled + w.post;
            && |AllInRange(before, m.cameraId, from, to, BUFFERED)| <= |TouchedIds(w, before, m)|
            && |AllInRange(middle, m.cameraId, from, to, AVAILABLE)| <= |TouchedIds(w, before, m)|
  {
    var from, to := m.handled - w.pre, m.handled + w.post;
    SubsetSize(AllInRange(before, m.cameraId, from, to, BUFFERED), TouchedIds(w, before, m));
    forall id | id in AllInRange(middle, m.cameraId, from, to, AVAILABLE)
      ensures id in TouchedIds(w, before, m)
    {
      assert middle[id] == if id in buffered then Kept(before[id]) else before[id];
    }
    SubsetSize(AllInRange(middle, m.cameraId, from, to, AVAILABLE), TouchedIds(w, before, m));
  }

  lemma BufferedFound(rows: map<RecordingId, Recording>, buffered: seq<RecordingId>)
    requires var all := set id | id in rows && rows[id].status == BUFFERED;
             OldestOf(rows, all, buffered)
             && (|buffered| < MAX_BUFFERED_SCAN ==> forall id :: id in all ==> id in buffered)
    ensures forall i :: 0 <= i < |buffered| ==> buffered[i] in rows && rows[buffered[i]].status == BUFFERED
    ensures forall i, j :: 0 <= i < j < |buffered| ==> buffered[i] != buffered[j]
    ensures |BufferedIds(rows)| < MAX_BUFFERED_SCAN ==> forall id :: id in BufferedIds(rows) ==> id in buffered
  {
    TakenAre(rows, BufferedIds(rows), buffered);
    DistinctLength(buffered);
    SubsetSize(IdSet(buffered), BufferedIds(rows));
  }

  lemma ExpirableMeans(w: MotionWindow, rows: map<RecordingId, Recording>, now: int, id: RecordingId)
    ensures id in ExpirableIds(w, rows, now) <==>
              id in rows && rows[id].status == BUFFERED && rows[id].endTime < now - (w.pre + w.grace)
  {
  }

  lemma ExpirableAreBuffered(w: MotionWindow, rows: map<RecordingId, Recording>, now: int)
    ensures ExpirableIds(w, rows, now) <= BufferedIds(rows)
  {
  }

  /** What the two loops of OnMotion do to the rows they were given. */
  ghost predicate Looped(
    before: map<RecordingId, Recording>, middle: map<RecordingId, Recording>, after: map<RecordingId, Recording>,
    buffered: seq<RecordingId>, available: seq<RecordingId>)
  {
    && before.Keys == middle.Keys == after.Keys
    && (forall id :: id in before ==> middle[id] == if id in buffered then Kept(before[id]) else before[id])
    && (forall id :: id in before ==> after[id] == if id in available then Tiered(middle[id]) else middle[id])
  }

  /** Rows in range, each once, and all of them when there are fewer than the limit. */
  ghost predicate Found(
    rows: map<RecordingId, Recording>, cameraId: CameraId, from: int, to: int, status: SegmentStatus,
    found: seq<RecordingId>)
  {
    && (forall i :: 0 <= i < |found| ==> InRange(rows, cameraId, from, to, status, found[i]))
    && (forall i, j :: 0 <= i < j < |found| ==> found[i] != found[j])
    && (|found| < MAX_TIMELINE_SEGMENTS ==> forall id :: InRange(rows, cameraId, from, to, status, id) ==> id in found)
  }

  lemma FoundInRange(
    rows: map<RecordingId, Recording>, cameraId: CameraId, from: int, to: int, status: SegmentStatus,
    found: seq<RecordingId>)
    requires var all := AllInRange(rows, cameraId, from, to, status);
             OldestOf(rows, all, found) && (|found| < MAX_TIMELINE_SEGMENTS ==> forall id :: id in all ==> id in found)
    ensures Found(rows, cameraId, from, to, status, found)
    ensures forall i :: 0 <= i < |found| ==> found[i] in rows
    ensures forall i, j :: 0 <= i < j < |found| ==> found[i] != found[j]
  {
  }

  lemma MotionDone(
    w: MotionWindow, before: map<RecordingId, Recording>, middle: map<RecordingId, Recording>,
    after: map<RecordingId, Recording>, m: Motion, buffered: seq<RecordingId>, available: seq<RecordingId>)
    requires Looped(before, middle, after, buffered, available)
    requires Found(before, m.cameraId, m.handled - w.pre, m.handled + w.post, BUFFERED, buffered)
    requires Found(middle, m.cameraId, m.handled - w.pre, m.handled + w.post, AVAILABLE, available)
    ensures SomeAfterMotion(w, before, after, m)
    ensures |TouchedIds(w, before, m)| < MAX_TIMELINE_SEGMENTS ==>
              after == AllAfterMotion(w, before, m) && |buffered| == |BufferedNear(w, before, m)|
  {
    hide Looped, SomeAfterMotion, AllAfterMotion, BufferedNear, Kept;
    var from, to := m.handled - w.pre, m.handled + w.post;
    SomeTouched(w, before, middle, after, m, buffered, available);
    var few := |TouchedIds(w, before, m)|;
    if few < MAX_TIMELINE_SEGMENTS {
      NearAreTouched(w, before, middle, after, m, buffered, available);
      FewAreAllFound(AllInRange(before, m.cameraId, from, to, BUFFERED), buffered, few);
      FewAreAllFound(AllInRange(middle, m.cameraId, from, to, AVAILABLE), available, few);
      AllTouched(w, before, middle, after, m, buffered, available);
      BufferedAre(w, before, m, buffered);
    }
  }

  lemma SomeTouched(
    w: MotionWindow, before: map<RecordingId, Recording>, middle: map<RecordingId, Recording>,
    after: map<RecordingId, Recording>, m: Motion, buffered: seq<RecordingId>, available: seq<RecordingId>)
    requires Looped(before, middle, after, buffered, available)
    requires var (from, to) := (m.handled - w.pre, m.handled + w.post);
             && (forall id :: id in buffered ==> InRange(before, m.cameraId, from, to, BUFFERED, id))
             && (forall id :: id in available ==> InRange(middle, m.cameraId, from, to, AVAILABLE, id))
    ensures SomeAfterMotion(w, before, after, m)
  {
    forall id | id in before
      ensures after[id] == before[id] || after[id] == AfterMotion(w, before[id], m)
    {
      assert middle[id] == if id in buffered then Kept(before[id]) else before[id];
    }
  }

  /** Given all rows in range, the two loops together apply the motion to every row. */
  lemma AllTouched(
    w: MotionWindow, before: map<RecordingId, Recording>, middle: map<RecordingId, Recording>,
    after: map<RecordingId, Recording>, m: Motion, buffered: seq<RecordingId>, available: seq<RecordingId>)
    requires Looped(before, middle, after, buffered, available)
    requires var (from, to) := (m.handled - w.pre, m.handled + w.post);
             && (forall id :: id in buffered <==> InRange(before, m.cameraId, from, to, BUFFERED, id))
             && (forall id :: id in available <==> InRange(middle, m.cameraId, from, to, AVAILABLE, id))
    ensures after == AllAfterMotion(w, before, m)
  {
    var from, to := m.handled - w.pre, m.handled + w.post;
    forall id | id in before
      ensures after[id] == AfterMotion(w, before[id], m)
    {
      assert id in buffered <==> InRange(before, m.cameraId, from, to, BUFFERED, id);
      assert id in available <==> InRange(middle, m.cameraId, from, to, AVAILABLE, id);
    }
  }

  lemma SamePaths(
    w: MotionWindow, before: map<RecordingId, Recording>, after: map<RecordingId, Recording>, m: Motion)
    requires SomeAfterMotion(w, before, after, m)
    ensures forall id :: id in before ==>
              && after[id].FilePath() == before[id].FilePath()
              && (Visible(after[id].status) ==> Visible(before[id].status))
  {
    hide Touches;
  }

  lemma MotionKeepsInv(w: MotionWindow, s: Catalogue, rows: map<RecordingId, Recording>, m: Motion)
    requires Inv(s) && s.deletions == [] && SomeAfterMotion(w, s.rows, rows, m)
    ensures Inv(s.(rows := rows))
  {
    hide UniquePaths, WatermarksSound, NoGap, OnlyRecorded, ScanSound;
    var s' := s.(rows := rows);
    SamePaths(w, s.rows, rows, m);
    StatusesKeepTheRest(s, s');
  }

  lemma UntouchedMeans(
    before: map<RecordingId, Recording>, rows: map<RecordingId, Recording>, ids: set<RecordingId>, id: RecordingId)
    requires OthersUntouched(before, rows, ids) && id in before && id !in ids
    ensures id in rows && rows[id] == before[id]
  {
  }

  lemma NothingTouched(rows: map<RecordingId, Recording>)
    ensures OthersUntouched(rows, rows, {})
  {
  }

  lemma TouchedWithin(
    before: map<RecordingId, Recording>, rows: map<RecordingId, Recording>, ids: set<RecordingId>,
    more: set<RecordingId>)
    requires OthersUntouched(before, rows, ids) && ids <= more
    ensures OthersUntouched(before, rows, more)
  {
  }

  lemma NoneExpirable(
    w: MotionWindow, before: map<RecordingId, Recording>, rows: map<RecordingId, Recording>, now: int,
    done: set<RecordingId>)
    requires OthersUntouched(before, rows, done) && ExpirableIds(w, before, now) <= done
    requires forall id :: id in done ==> id !in rows
    ensures ExpirableIds(w, rows, now) == {}
  {
    forall id | id in rows
      ensures !Expirable(w, rows[id], now)
    {
      assert rows[id] == before[id];
      assert id !in ExpirableIds(w, before, now);
    }
  }

  lemma RowIsHandedOut(s: Catalogue, id: RecordingId)
    requires Inv(s) && id in s.rows
    ensures HandedOut(s, id, s.rows[id].FilePath())
  {
  }
}
