/** The catalogue protocol keeps its invariant over every interleaving, crashes included. */
module CatalogueSafety {
  import opened RecordingTypes
  import opened CatalogueProtocol
  import opened MotionBuffer

  lemma SameFiles(rows: map<RecordingId, Recording>, rows': map<RecordingId, Recording>, path: SegmentPath)
    requires rows.Keys == rows'.Keys && forall id :: id in rows ==> rows'[id].FilePath() == rows[id].FilePath()
    ensures Catalogued(rows, path) <==> Catalogued(rows', path)
  {
    if Catalogued(rows, path) {
      var id :| id in rows && rows[id].FilePath() == path;
      assert id in rows' && rows'[id].FilePath() == path;
    }
    if Catalogued(rows', path) {
      var id :| id in rows' && rows'[id].FilePath() == path;
      assert id in rows && rows[id].FilePath() == path;
    }
  }

  /** Rows keep their files, ids stay, the disk does not change: only statuses may differ. */
  ghost predicate OnlyStatuses(s: Catalogue, s': Catalogue) {
    && s'.disk == s.disk && s'.newest == s.newest && s'.nextId == s.nextId
    && s'.watermarks == s.watermarks && s'.scan == s.scan
    && s'.rows.Keys == s.rows.Keys
    && forall id :: id in s.rows ==> s'.rows[id].FilePath() == s.rows[id].FilePath()
  }

  lemma StatusesKeepTheRest(s: Catalogue, s': Catalogue)
    requires Inv(s) && OnlyStatuses(s, s')
    ensures UniquePaths(s'.rows) && WatermarksSound(s') && NoGap(s') && OnlyRecorded(s')
    ensures s'.scan.Some? ==> ScanSound(s', s'.scan.value)
  {
    forall path
      ensures Catalogued(s.rows, path) <==> Catalogued(s'.rows, path)
    {
      SameFiles(s.rows, s'.rows, path);
    }
    forall id | id in s.rows
      ensures s'.rows[id].cameraId == s.rows[id].cameraId && s'.rows[id].startTime == s.rows[id].startTime
    {
      assert s'.rows[id].FilePath() == s.rows[id].FilePath();
    }
  }

  lemma RecordKeeps(s: Catalogue, path: SegmentPath)
    requires Inv(s) && Enabled(s, Record(path))
    ensures Inv(Apply(s, Record(path)))
  {
    hide ScanSound, DeletionsSound;
    RecordKeepsScan(s, path);
    RecordKeepsDeletions(s, path);
    NewestGrows(s, path);
  }

  lemma NewestGrows(s: Catalogue, path: SegmentPath)
    requires Enabled(s, Record(path))
    ensures var newest' := Apply(s, Record(path)).newest;
            && (forall c, t :: Covers(Newest(s.newest, c), t) ==> Covers(Newest(newest', c), t))
            && (forall t :: Covers(Newest(s.newest, path.cameraId), t) ==> t < path.start)
  {
  }

  lemma RecordKeepsScan(s: Catalogue, path: SegmentPath)
    requires Inv(s) && Enabled(s, Record(path))
    ensures var s' := Apply(s, Record(path)); s'.scan.Some? ==> ScanSound(s', s'.scan.value)
  {
    hide UniquePaths, VisibleOnDisk, WatermarksSound, NoGap, DeletionsSound;
    NewestGrows(s, path);
    if s.scan.Some? {
      var scan := s.scan.value;
      assert scan.cameraId == path.cameraId ==> !Covers(scan.top, path.start) && !Covers(scan.watermark, path.start);
      assert ScanSound(s, scan);
      forall other | other in s.disk + {path} && other.cameraId == scan.cameraId && Covers(scan.top, other.start)
        ensures Catalogued(s.rows, other) || other.start in scan.names
      {
        assert other != path;
      }
    }
  }

  lemma RecordKeepsDeletions(s: Catalogue, path: SegmentPath)
    requires Inv(s) && Enabled(s, Record(path))
    ensures DeletionsSound(Apply(s, Record(path)))
  {
    hide UniquePaths, VisibleOnDisk, WatermarksSound, NoGap, OnlyRecorded, ScanSound;
    var s' := Apply(s, Record(path));
    NewestGrows(s, path);
    forall k | 0 <= k < |s'.deletions|
      ensures DeletionSound(s', s'.deletions[k])
    {
      assert DeletionSound(s, s.deletions[k]);
    }
  }

  /** A file removed by another hand keeps the invariant exactly when no visible row claims it. */
  lemma VanishKeepsIff(s: Catalogue, path: SegmentPath)
    requires Inv(s) && Enabled(s, Vanish(path))
    ensures Inv(Apply(s, Vanish(path))) <==> Safe(s, Vanish(path))
  {
    var s' := Apply(s, Vanish(path));
    if Safe(s, Vanish(path)) {
      forall k | 0 <= k < |s'.deletions|
        ensures DeletionSound(s', s'.deletions[k])
      {
        assert DeletionSound(s, s.deletions[k]);
      }
    } else {
      assert !VisibleOnDisk(s');
    }
  }

  lemma ReadNamesKeeps(s: Catalogue, cameraId: CameraId, names: seq<int>)
    requires Inv(s) && Enabled(s, ReadNames(cameraId, names))
    ensures Inv(Apply(s, ReadNames(cameraId, names)))
  {
    var s' := Apply(s, ReadNames(cameraId, names));
    forall path | path in s.disk && path.cameraId == cameraId
      ensures path.start in names
    {
      assert path == SegmentPath(cameraId, path.start);
    }
    DeletionsUntouched(s, s');
  }

  lemma DeletionsUntouched(s: Catalogue, s': Catalogue)
    requires DeletionsSound(s)
    requires s'.disk == s.disk && s'.newest == s.newest && s'.nextId == s.nextId && s'.rows == s.rows
    requires s'.deletions == s.deletions
    ensures DeletionsSound(s')
  {
    forall k | 0 <= k < |s'.deletions|
      ensures DeletionSound(s', s'.deletions[k])
    {
      assert DeletionSound(s, s.deletions[k]);
    }
  }

  lemma LoadWatermarkKeeps(s: Catalogue, w: Watermark)
    requires Inv(s) && Enabled(s, LoadWatermark(w))
    ensures Inv(Apply(s, LoadWatermark(w)))
  {
    var s' := Apply(s, LoadWatermark(w));
    var cameraId := s.scan.value.cameraId;
    forall path | path in s.disk && path.cameraId == cameraId && Covers(w, path.start)
      ensures Catalogued(s.rows, path)
    {
      if cameraId !in s.watermarks {
        var id :| id in s.rows && s.rows[id].cameraId == cameraId && s.rows[id].startTime == w.at;
      }
    }
    if cameraId !in s.watermarks && w.Upto? {
      var id :| id in s.rows && s.rows[id].cameraId == cameraId && s.rows[id].startTime == w.at;
    }
    DeletionsUntouched(s, s');
  }

  lemma SkipNameKeeps(s: Catalogue)
    requires Inv(s) && Enabled(s, SkipName)
    ensures Inv(Apply(s, SkipName))
  {
    var s' := Apply(s, SkipName);
    var scan, scan' := s.scan.value, s'.scan.value;
    assert forall start :: start in scan.names <==> start == scan.names[0] || start in scan'.names;
    forall path | path in s.disk && path.cameraId == scan.cameraId && Covers(scan.top, path.start)
      ensures Catalogued(s.rows, path) || path.start in scan'.names
    {
      if path.start == scan.names[0] {
        assert path == Current(scan);
      }
    }
    DeletionsUntouched(s, s');
  }

  lemma LookupKeeps(s: Catalogue)
    requires Inv(s) && Enabled(s, Lookup)
    ensures Inv(Apply(s, Lookup))
  {
    DeletionsUntouched(s, Apply(s, Lookup));
  }

  lemma ValidationFindsNoFileKeeps(s: Catalogue)
    requires Inv(s) && Enabled(s, ValidationFindsNoFile)
    ensures Inv(Apply(s, ValidationFindsNoFile))
  {
    DeletionsUntouched(s, Apply(s, ValidationFindsNoFile));
  }

  /** Writing a row keeps the invariant exactly when its file is still there. */
  lemma InsertKeepsIff(s: Catalogue, row: Recording)
    requires Inv(s) && Enabled(s, Insert(row))
    ensures Inv(Apply(s, Insert(row))) <==> Safe(s, Insert(row))
  {
    if Safe(s, Insert(row)) {
      InsertKeeps(s, row);
    } else {
      var s' := Apply(s, Insert(row));
      assert s'.rows[row.id] == row && row.FilePath() !in s'.disk;
      assert !VisibleOnDisk(s');
    }
  }

  lemma InsertKeeps(s: Catalogue, row: Recording)
    requires Inv(s) && Enabled(s, Insert(row)) && row.FilePath() in s.disk
    ensures Inv(Apply(s, Insert(row)))
  {
    hide ScanSound, DeletionsSound, Catalogued, UniquePaths, VisibleOnDisk, WatermarksSound, NoGap, OnlyRecorded;
    InsertedIsNew(s, row);
    InsertKeepsRows(s, row);
    InsertKeepsGap(s, row);
    InsertKeepsScan(s, row);
    InsertKeepsDeletions(s, row);
  }

  lemma InsertKeepsRows(s: Catalogue, row: Recording)
    requires UniquePaths(s.rows) && VisibleOnDisk(s) && OnlyRecorded(s) && Enabled(s, Insert(row))
    requires row.FilePath() in s.disk && Covers(Newest(s.newest, row.cameraId), row.startTime)
    requires row.id !in s.rows && forall id :: id in s.rows ==> s.rows[id].FilePath() != row.FilePath()
    ensures var s' := Apply(s, Insert(row)); UniquePaths(s'.rows) && VisibleOnDisk(s') && OnlyRecorded(s')
  {
  }

  lemma InsertKeepsGap(s: Catalogue, row: Recording)
    requires WatermarksSound(s) && NoGap(s) && Enabled(s, Insert(row)) && row.id !in s.rows
    requires forall path :: path in s.disk && path.cameraId == row.cameraId && path.start <= row.startTime ==>
                              Catalogued(s.rows, path) || path == row.FilePath()
    ensures var s' := Apply(s, Insert(row)); WatermarksSound(s') && NoGap(s')
  {
    hide Catalogued;
    CataloguedAfterInserts(s, row);
  }

  lemma CataloguedAfterInserts(s: Catalogue, row: Recording)
    requires row.id !in s.rows
    ensures forall path ::
              Catalogued(s.rows[row.id := row], path) <==> Catalogued(s.rows, path) || path == row.FilePath()
  {
    forall path
      ensures Catalogued(s.rows[row.id := row], path) <==> Catalogued(s.rows, path) || path == row.FilePath()
    {
      CataloguedAfterInsert(s.rows, row, path);
    }
  }

  /** The new row's file had no row, and every older file of the camera has one. */
  lemma InsertedIsNew(s: Catalogue, row: Recording)
    requires Inv(s) && Enabled(s, Insert(row))
    ensures row.id !in s.rows && forall id :: id in s.rows ==> s.rows[id].FilePath() != row.FilePath()
    ensures Covers(Newest(s.newest, row.cameraId), row.startTime)
    ensures forall path :: path in s.disk && path.cameraId == row.cameraId && path.start <= row.startTime ==>
                             Catalogued(s.rows, path) || path == row.FilePath()
  {
    hide UniquePaths, VisibleOnDisk, WatermarksSound, NoGap, DeletionsSound;
    var scan := s.scan.value;
    assert scan.names[0] in scan.names;
    forall path | path in s.disk && path.cameraId == row.cameraId && path.start <= row.startTime
      ensures Catalogued(s.rows, path) || path == row.FilePath()
    {
      if !Catalogued(s.rows, path) {
        var i :| 0 <= i < |scan.names| && scan.names[i] == path.start;
        assert path == row.FilePath();
      }
    }
  }

  lemma InsertKeepsScan(s: Catalogue, row: Recording)
    requires Inv(s) && Enabled(s, Insert(row))
    ensures var s' := Apply(s, Insert(row)); ScanSound(s', s'.scan.value)
  {
    hide UniquePaths, VisibleOnDisk, WatermarksSound, NoGap, DeletionsSound, Catalogued;
    InsertedIsNew(s, row);
    CataloguedAfterInserts(s, row);
  }

  lemma InsertKeepsDeletions(s: Catalogue, row: Recording)
    requires Inv(s) && Enabled(s, Insert(row))
    ensures DeletionsSound(Apply(s, Insert(row)))
  {
    hide UniquePaths, VisibleOnDisk, WatermarksSound, NoGap, OnlyRecorded, ScanSound;
    var s' := Apply(s, Insert(row));
    forall k | 0 <= k < |s'.deletions|
      ensures DeletionSound(s', s'.deletions[k])
    {
      assert DeletionSound(s, s.deletions[k]);
    }
  }

  lemma CataloguedAfterInsert(rows: map<RecordingId, Recording>, row: Recording, path: SegmentPath)
    requires row.id !in rows
    ensures Catalogued(rows[row.id := row], path) <==> Catalogued(rows, path) || path == row.FilePath()
  {
    var rows' := rows[row.id := row];
    if Catalogued(rows, path) {
      var id :| id in rows && rows[id].FilePath() == path;
      assert id in rows' && rows'[id].FilePath() == path;
    }
    assert row.id in rows' && rows'[row.id].FilePath() == row.FilePath();
  }

  lemma AdvanceWatermarkKeeps(s: Catalogue)
    requires Inv(s) && Enabled(s, AdvanceWatermark)
    ensures Inv(Apply(s, AdvanceWatermark))
  {
    var s' := Apply(s, AdvanceWatermark);
    var scan, scan' := s.scan.value, s'.scan.value;
    assert scan.names[0] in scan.names;
    assert forall start :: start in scan.names <==> start == scan.names[0] || start in scan'.names;
    forall path | path in s.disk && path.cameraId == scan.cameraId && Covers(scan.top, path.start)
      ensures Catalogued(s.rows, path) || (path.start in scan'.names && scan.names[0] < path.start)
    {
      if path.start == scan.names[0] {
        assert path == Current(scan);
      } else if !Catalogued(s.rows, path) {
        var i :| 0 <= i < |scan.names| && scan.names[i] == path.start;
      }
    }
    DeletionsUntouched(s, s');
  }

  lemma RequestKeeps(s: Catalogue, id: RecordingId)
    requires Inv(s) && id in s.rows
    ensures Inv(Apply(s, Request(id)))
    ensures s.rows[id].status == DELETE_PENDING ==> Inv(Apply(s, Resume(id)))
  {
    hide Inv;
    RowIsDeletable(s, id);
    AppendKeeps(s, Deletion(id, s.rows[id].FilePath(), Requested));
    if s.rows[id].status == DELETE_PENDING {
      AppendKeeps(s, Deletion(id, s.rows[id].FilePath(), Marked));
    }
  }

  lemma RowIsDeletable(s: Catalogue, id: RecordingId)
    requires Inv(s) && id in s.rows
    ensures DeletionSound(s, Deletion(id, s.rows[id].FilePath(), Requested))
    ensures s.rows[id].status == DELETE_PENDING ==> DeletionSound(s, Deletion(id, s.rows[id].FilePath(), Marked))
  {
    hide UniquePaths, VisibleOnDisk, WatermarksSound, NoGap, ScanSound, DeletionsSound;
  }

  lemma SameButDeletions(s: Catalogue, s': Catalogue)
    requires Inv(s) && s' == s.(deletions := s'.deletions)
    ensures UniquePaths(s'.rows) && VisibleOnDisk(s') && WatermarksSound(s') && NoGap(s') && OnlyRecorded(s')
    ensures s'.scan.Some? ==> ScanSound(s', s'.scan.value)
  {
    hide DeletionsSound, UniquePaths;
  }

  lemma AppendKeeps(s: Catalogue, d: Deletion)
    requires Inv(s) && DeletionSound(s, d)
    ensures Inv(s.(deletions := s.deletions + [d]))
  {
    hide UniquePaths, VisibleOnDisk, WatermarksSound, NoGap, OnlyRecorded, ScanSound;
    var s' := s.(deletions := s.deletions + [d]);
    SameButDeletions(s, s');
    forall k | 0 <= k < |s'.deletions|
      ensures DeletionSound(s', s'.deletions[k])
    {
      if k < |s.deletions| {
        assert DeletionSound(s, s.deletions[k]);
      }
    }
  }

  /** A mark keeps the invariant exactly when it was written or the row was not visible any more. */
  lemma MarkKeepsIff(s: Catalogue, k: nat, written: bool)
    requires Inv(s) && Enabled(s, Mark(k, written))
    ensures Inv(Apply(s, Mark(k, written))) <==> Safe(s, Mark(k, written))
  {
    hide UniquePaths, WatermarksSound, NoGap, OnlyRecorded, ScanSound, DeletionsSound;
    var s' := Apply(s, Mark(k, written));
    MarkKeepsDeletionsIff(s, k, written);
    if Safe(s, Mark(k, written)) {
      StatusesKeepTheRest(s, s');
    }
  }

  lemma MarkKeepsDeletionsIff(s: Catalogue, k: nat, written: bool)
    requires Inv(s) && Enabled(s, Mark(k, written))
    ensures DeletionsSound(Apply(s, Mark(k, written))) <==> Safe(s, Mark(k, written))
  {
    hide UniquePaths, VisibleOnDisk, WatermarksSound, NoGap, OnlyRecorded, ScanSound;
    var s' := Apply(s, Mark(k, written));
    assert DeletionSound(s, s.deletions[k]);
    if Safe(s, Mark(k, written)) {
      forall j | 0 <= j < |s'.deletions|
        ensures DeletionSound(s', s'.deletions[j])
      {
        assert DeletionSound(s, s.deletions[j]);
      }
    } else {
      assert !DeletionSound(s', s'.deletions[k]);
    }
  }

  /** A motion keep of a row keeps the invariant exactly when the row is gone, or its file is there and no
    * delete that has marked the row is still to unlink it. */
  lemma KeepKeepsIff(s: Catalogue, id: RecordingId)
    requires Inv(s)
    ensures Inv(Apply(s, Keep(id))) <==> Safe(s, Keep(id))
  {
    hide UniquePaths, WatermarksSound, NoGap, OnlyRecorded, ScanSound, DeletionsSound;
    var s' := Apply(s, Keep(id));
    KeepKeepsDeletionsIff(s, id);
    if Safe(s, Keep(id)) {
      StatusesKeepTheRest(s, s');
    } else if s.rows[id].FilePath() !in s.disk {
      assert id in s'.rows && Visible(s'.rows[id].status) && s'.rows[id].FilePath() !in s'.disk;
    }
  }

  lemma KeepKeepsDeletionsIff(s: Catalogue, id: RecordingId)
    requires Inv(s)
    ensures DeletionsSound(Apply(s, Keep(id))) <==>
              (id in s.rows ==>
                 forall k :: 0 <= k < |s.deletions| && s.deletions[k].id == id ==> s.deletions[k].phase != Marked)
  {
    hide UniquePaths, VisibleOnDisk, WatermarksSound, NoGap, OnlyRecorded, ScanSound;
    var s' := Apply(s, Keep(id));
    if id in s.rows && exists k :: 0 <= k < |s.deletions| && s.deletions[k].id == id && s.deletions[k].phase == Marked {
      var k :| 0 <= k < |s.deletions| && s.deletions[k].id == id && s.deletions[k].phase == Marked;
      assert id in s'.rows && Visible(s'.rows[id].status) && s'.deletions[k] == s.deletions[k];
      assert !DeletionSound(s', s'.deletions[k]);
    } else {
      forall j | 0 <= j < |s'.deletions|
        ensures DeletionSound(s', s'.deletions[j])
      {
        assert DeletionSound(s, s.deletions[j]);
      }
    }
  }

  lemma UnlinkKeeps(s: Catalogue, k: nat)
    requires Inv(s) && Enabled(s, Unlink(k))
    ensures Inv(Apply(s, Unlink(k)))
  {
    var s' := Apply(s, Unlink(k));
    var d := s.deletions[k];
    assert DeletionSound(s, d);
    forall id | id in s.rows && Visible(s.rows[id].status)
      ensures s.rows[id].FilePath() in s'.disk
    {
      assert s.rows[id].FilePath() == d.path ==> id == d.id;
    }
    forall j | 0 <= j < |s'.deletions|
      ensures DeletionSound(s', s'.deletions[j])
    {
      assert DeletionSound(s, s.deletions[j]);
    }
  }

  lemma FindNoFileKeeps(s: Catalogue, k: nat)
    requires Inv(s) && Enabled(s, FindNoFile(k))
    ensures Inv(Apply(s, FindNoFile(k)))
  {
    var s' := Apply(s, FindNoFile(k));
    forall j | 0 <= j < |s'.deletions|
      ensures DeletionSound(s', s'.deletions[j])
    {
      assert DeletionSound(s, s.deletions[j]);
    }
  }

  lemma GarbageKeeps(s: Catalogue, k: nat, garbage: bool)
    requires Inv(s) && k < |s.deletions|
    ensures Inv(s.(rows := if garbage then WithStatus(s.rows, s.deletions[k].id, GARBAGE) else s.rows,
                   deletions := WithPhase(s, k, Finished)))
  {
    var s' := s.(rows := if garbage then WithStatus(s.rows, s.deletions[k].id, GARBAGE) else s.rows,
                 deletions := WithPhase(s, k, Finished));
    StatusesKeepTheRest(s, s');
    forall j | 0 <= j < |s'.deletions|
      ensures DeletionSound(s', s'.deletions[j])
    {
      assert DeletionSound(s, s.deletions[j]);
    }
  }

  lemma DropRowKeeps(s: Catalogue, k: nat)
    requires Inv(s) && Enabled(s, DropRow(k))
    ensures Inv(Apply(s, DropRow(k)))
  {
    var s' := Apply(s, DropRow(k));
    var d := s.deletions[k];
    assert DeletionSound(s, d);
    forall path | path in s.disk && Catalogued(s.rows, path)
      ensures Catalogued(s'.rows, path)
    {
      var id :| id in s.rows && s.rows[id].FilePath() == path;
      assert id in s'.rows && s'.rows[id].FilePath() == path;
    }
    forall path | Catalogued(s'.rows, path)
      ensures Catalogued(s.rows, path)
    {
      var id :| id in s'.rows && s'.rows[id].FilePath() == path;
      assert id in s.rows && s.rows[id].FilePath() == path;
    }
    forall j | 0 <= j < |s'.deletions|
      ensures DeletionSound(s', s'.deletions[j])
    {
      assert DeletionSound(s, s.deletions[j]);
      if s.deletions[j].id == d.id && d.id in s.rows {
        assert s.deletions[j].path == d.path;
      }
    }
  }

  lemma EndScanKeeps(s: Catalogue)
    requires Inv(s) && Enabled(s, EndScan)
    ensures Inv(Apply(s, EndScan))
  {
    DeletionsUntouched(s, Apply(s, EndScan));
  }

  lemma CrashKeeps(s: Catalogue)
    requires Inv(s)
    ensures Inv(Apply(s, Step.Crash))
  {
  }

  /** The invariant is kept by exactly the safe steps. */
  lemma StepKeepsIff(s: Catalogue, step: Step)
    requires Inv(s) && Enabled(s, step)
    ensures Inv(Apply(s, step)) <==> Safe(s, step)
  {
    hide Inv;
    match step
    case Record(path) => RecordKeeps(s, path);
    case Vanish(path) => VanishKeepsIff(s, path);
    case ReadNames(cameraId, names) => ReadNamesKeeps(s, cameraId, names);
    case LoadWatermark(w) => LoadWatermarkKeeps(s, w);
    case SkipName => SkipNameKeeps(s);
    case Lookup => LookupKeeps(s);
    case ValidationFindsNoFile => ValidationFindsNoFileKeeps(s);
    case Insert(row) => InsertKeepsIff(s, row);
    case AdvanceWatermark => AdvanceWatermarkKeeps(s);
    case EndScan => EndScanKeeps(s);
    case Request(id) => RequestKeeps(s, id);
    case Mark(k, written) => MarkKeepsIff(s, k, written);
    case Unlink(k) => UnlinkKeeps(s, k);
    case FindNoFile(k) => FindNoFileKeeps(s, k);
    case Refuse(k, garbage) => GarbageKeeps(s, k, garbage);
    case DropRow(k) => DropRowKeeps(s, k);
    case DropFails(k, garbage) => GarbageKeeps(s, k, garbage);
    case Resume(id) => RequestKeeps(s, id);
    case Keep(id) => KeepKeepsIff(s, id);
    case Crash => CrashKeeps(s);
  }

  // ---------------------------------------------------------------------
  // Whole runs
  // ---------------------------------------------------------------------

  /** Every step is enabled when it is taken. */
  ghost predicate IsRun(s: Catalogue, steps: seq<Step>)
    decreases |steps|
  {
    steps == [] || (Enabled(s, steps[0]) && IsRun(Apply(s, steps[0]), steps[1..]))
  }

  ghost function After(s: Catalogue, steps: seq<Step>): Catalogue
    requires IsRun(s, steps)
    decreases |steps|
  {
    if steps == [] then s else After(Apply(s, steps[0]), steps[1..])
  }

  ghost predicate IsSafeRun(s: Catalogue, steps: seq<Step>)
    decreases |steps|
  {
    steps == [] || (Enabled(s, steps[0]) && Safe(s, steps[0]) && IsSafeRun(Apply(s, steps[0]), steps[1..]))
  }

  lemma {:induction false} SafeRunIsRun(s: Catalogue, steps: seq<Step>)
    requires IsSafeRun(s, steps)
    ensures IsRun(s, steps)
    decreases |steps|
  {
    if steps == [] {
    } else {
      SafeRunIsRun(Apply(s, steps[0]), steps[1..]);
    }
  }

  /** The invariant holds after every safe run. */
  lemma {:induction false} SafeRunsKeepInv(s: Catalogue, steps: seq<Step>)
    requires Inv(s) && IsSafeRun(s, steps)
    ensures IsRun(s, steps) && Inv(After(s, steps))
    decreases |steps|
  {
    if steps == [] {
    } else {
      StepKeepsIff(s, steps[0]);
      SafeRunsKeepInv(Apply(s, steps[0]), steps[1..]);
    }
  }

  // ---------------------------------------------------------------------
  // Crash safety
  // ---------------------------------------------------------------------

  /** No path has two rows, every visible row has its file, every file at or below a watermark has a row, and a restart
    * at this moment resumes exactly: the watermark `w` reloaded from the newest row covers precisely the files that
    * have a row, so the next scan skips nothing and duplicates nothing. */
  ghost predicate ResumesExactly(s: Catalogue, cameraId: CameraId, w: Watermark) {
    && UniquePaths(s.rows)
    && VisibleOnDisk(s)
    && WatermarksSound(s)
    && forall path :: path in s.disk && path.cameraId == cameraId ==>
                        (Covers(w, path.start) <==> Catalogued(s.rows, path))
  }

  lemma SoundResumes(s: Catalogue, cameraId: CameraId, w: Watermark)
    requires Inv(s) && IsNewestRow(s.rows, cameraId, w)
    ensures ResumesExactly(s, cameraId, w)
  {
    forall path | path in s.disk && path.cameraId == cameraId
      ensures Covers(w, path.start) <==> Catalogued(s.rows, path)
    {
      if Catalogued(s.rows, path) {
        var id :| id in s.rows && s.rows[id].FilePath() == path;
        assert s.rows[id].cameraId == cameraId && s.rows[id].startTime == path.start;
      }
      if Covers(w, path.start) {
        var id :| id in s.rows && s.rows[id].cameraId == cameraId && s.rows[id].startTime == w.at;
      }
    }
  }

  /** The general case: every safe run, motion keeps and foreign removals included. */
  lemma SafeRunsResumeExactly(steps: seq<Step>, cameraId: CameraId, w: Watermark)
    requires IsSafeRun(EMPTY, steps)
    requires IsRun(EMPTY, steps) ==> IsNewestRow(After(EMPTY, steps).rows, cameraId, w)
    ensures IsRun(EMPTY, steps) && ResumesExactly(After(EMPTY, steps), cameraId, w)
  {
    hide Inv, ResumesExactly;
    EmptyIsSound();
    SafeRunsKeepInv(EMPTY, steps);
    SoundResumes(After(EMPTY, steps), cameraId, w);
  }

  lemma EmptyIsSound()
    ensures Inv(EMPTY)
  {
  }

  /** The steps of recording, scanning, deleting, recovering and crashing. Left out are a removal by another hand, a
    * motion keep, and a mark lost to a database error. */
  predicate Plain(step: Step) {
    !step.Vanish? && !step.Keep? && (step.Mark? ==> step.written)
  }

  predicate AllPlain(steps: seq<Step>) {
    forall i :: 0 <= i < |steps| ==> Plain(steps[i])
  }

  /** The file a scan is validating is still there. */
  ghost predicate FileThere(s: Catalogue) {
    AtName(s, Validating) ==> Current(s.scan.value) in s.disk
  }

  /** A delete unlinks only files that have a row, and the file being validated has none. */
  lemma UnlinkSparesValidated(s: Catalogue, k: nat)
    requires Inv(s) && FileThere(s) && Enabled(s, Unlink(k))
    ensures FileThere(Apply(s, Unlink(k)))
  {
    var d := s.deletions[k];
    assert DeletionSound(s, d);
    assert Catalogued(s.rows, d.path);
  }

  lemma PlainStepIsSafe(s: Catalogue, step: Step)
    requires Inv(s) && FileThere(s) && Enabled(s, step) && Plain(step)
    ensures Safe(s, step) && FileThere(Apply(s, step))
  {
    hide Inv;
    match step
    case Unlink(k) => UnlinkSparesValidated(s, k);
    case _ =>
  }

  lemma {:induction false} PlainRunIsSafe(s: Catalogue, steps: seq<Step>)
    requires Inv(s) && FileThere(s) && IsRun(s, steps) && AllPlain(steps)
    ensures IsSafeRun(s, steps)
    decreases |steps|
  {
    hide Inv, Safe, Enabled, Apply, FileThere;
    if steps == [] {
    } else {
      PlainStepIsSafe(s, steps[0]);
      StepKeepsIff(s, steps[0]);
      PlainRunIsSafe(Apply(s, steps[0]), steps[1..]);
    }
  }

  /** Crash safety: in every state that recording, scanning, deleting, recovering and crashing can reach, in any
    * interleaving from an empty volume. */
  lemma CrashSafeCatalogue(steps: seq<Step>, cameraId: CameraId, w: Watermark)
    requires IsRun(EMPTY, steps) && AllPlain(steps)
    requires IsNewestRow(After(EMPTY, steps).rows, cameraId, w)
    ensures ResumesExactly(After(EMPTY, steps), cameraId, w)
  {
    hide Inv, ResumesExactly;
    EmptyIsSound();
    PlainRunIsSafe(EMPTY, steps);
    SafeRunsResumeExactly(steps, cameraId, w);
  }

  /** A row disappears only once its file is gone, and a file only once its row is not visible. */
  ghost predicate LeavesInOrder(s: Catalogue, step: Step)
    requires Enabled(s, step)
  {
    forall id :: id in s.rows ==>
      && (id !in Apply(s, step).rows ==> s.rows[id].FilePath() !in s.disk)
      && (s.rows[id].FilePath() in s.disk && s.rows[id].FilePath() !in Apply(s, step).disk ==>
            !Visible(s.rows[id].status))
  }

  lemma NothingLeavesEarly(s: Catalogue, step: Step)
    requires Inv(s) && Enabled(s, step) && Safe(s, step)
    ensures LeavesInOrder(s, step)
  {
    forall id | id in s.rows
      ensures id !in Apply(s, step).rows ==> s.rows[id].FilePath() !in s.disk
      ensures s.rows[id].FilePath() in s.disk && s.rows[id].FilePath() !in Apply(s, step).disk ==>
                !Visible(s.rows[id].status)
    {
      LeavesAfterItsFile(s, step, id);
    }
  }

  lemma LeavesAfterItsFile(s: Catalogue, step: Step, id: RecordingId)
    requires Inv(s) && Enabled(s, step) && Safe(s, step) && id in s.rows
    ensures id !in Apply(s, step).rows ==> s.rows[id].FilePath() !in s.disk
    ensures s.rows[id].FilePath() in s.disk && s.rows[id].FilePath() !in Apply(s, step).disk ==>
              !Visible(s.rows[id].status)
  {
    hide UniquePaths, VisibleOnDisk, WatermarksSound, NoGap, OnlyRecorded, ScanSound;
    match step
    case DropRow(k) => assert DeletionSound(s, s.deletions[k]);
    case Unlink(k) =>
      if s.rows[id].FilePath() == s.deletions[k].path {
        UnlinksItsOwn(s, k, id);
      }
    case _ =>
  }

  lemma UnlinksItsOwn(s: Catalogue, k: nat, id: RecordingId)
    requires Inv(s) && Enabled(s, Unlink(k)) && id in s.rows && s.rows[id].FilePath() == s.deletions[k].path
    ensures !Visible(s.rows[id].status)
  {
    var d := s.deletions[k];
    assert DeletionSound(s, d) && d.id in s.rows && s.rows[d.id].FilePath() == d.path;
  }

  ghost predicate AllLeaveInOrder(s: Catalogue, steps: seq<Step>)
    requires IsRun(s, steps)
    decreases |steps|
  {
    steps == [] || (LeavesInOrder(s, steps[0]) && AllLeaveInOrder(Apply(s, steps[0]), steps[1..]))
  }

  lemma {:induction false} SafeRunsLeaveInOrder(s: Catalogue, steps: seq<Step>)
    requires Inv(s) && IsSafeRun(s, steps) && IsRun(s, steps)
    ensures AllLeaveInOrder(s, steps)
    decreases |steps|
  {
    hide Inv, Safe, Enabled, Apply, LeavesInOrder;
    if steps == [] {
    } else {
      NothingLeavesEarly(s, steps[0]);
      StepKeepsIff(s, steps[0]);
      SafeRunsLeaveInOrder(Apply(s, steps[0]), steps[1..]);
    }
  }

  /** In every plain run, no row leaves before its file and no file before its row is hidden. */
  lemma NothingLeavesEarlyInRuns(steps: seq<Step>)
    requires IsRun(EMPTY, steps) && AllPlain(steps)
    ensures AllLeaveInOrder(EMPTY, steps)
  {
    hide Inv;
    EmptyIsSound();
    PlainRunIsSafe(EMPTY, steps);
    SafeRunsLeaveInOrder(EMPTY, steps);
  }

  lemma RunCons(s: Catalogue, step: Step, rest: seq<Step>)
    requires Enabled(s, step) && IsRun(Apply(s, step), rest)
    ensures IsRun(s, [step] + rest) && After(s, [step] + rest) == After(Apply(s, step), rest)
  {
    hide Enabled, Apply;
    assert ([step] + rest)[1..] == rest;
  }

  /** A lost mark is not harmless: followed by the unlink, it leaves a visible row without a file. */
  lemma LostMarkLeavesVisibleRowWithoutFile(s: Catalogue, k: nat)
    requires Inv(s) && Enabled(s, Mark(k, false)) && !Safe(s, Mark(k, false))
    ensures IsRun(s, [Mark(k, false)] + ([Unlink(k)] + []))
    ensures !VisibleOnDisk(After(s, [Mark(k, false)] + ([Unlink(k)] + [])))
  {
    hide IsRun, After;
    var d := s.deletions[k];
    assert DeletionSound(s, d);
    var s1 := Apply(s, Mark(k, false));
    assert s1.deletions[k].path == d.path && d.path in s1.disk;
    var s2 := Apply(s1, Unlink(k));
    assert s2.rows[d.id].FilePath() !in s2.disk;
    NoSteps(s2);
    RunCons(s1, Unlink(k), []);
    RunCons(s, Mark(k, false), [Unlink(k)] + []);
  }

  /** Expiry deletes a buffered segment only once it is expirable; other rows are the retention policy's to choose. */
  predicate MayBeDeleted(w: MotionWindow, row: Recording, now: int) {
    Visible(row.status) && (row.status == BUFFERED ==> Expirable(w, row, now))
  }

  /** A segment that a motion touches is out of expiry's reach for the grace period after the motion's clock was
    * read. */
  lemma ExpiryWaitsForGrace(w: MotionWindow, row: Recording, m: Motion, now: int)
    requires Touches(w, row, m) && row.status == BUFFERED && MayBeDeleted(w, row, now)
    ensures now - m.handled > w.grace
  {
  }

  /** A motion keep is not harmless either when its row is deleted between the moment motion read it as BUFFERED and the
    * moment it is updated. That takes a delete that may start in between: expiry, after motion stalled for longer than
    * the grace period, or the policy's, after another motion made the row AVAILABLE first. */
  lemma LateKeepLeavesVisibleRowWithoutFile(s: Catalogue, id: RecordingId, w: MotionWindow, m: Motion, now: int)
    requires Inv(s) && id in s.rows && Touches(w, s.rows[id], m) && MayBeDeleted(w, s.rows[id], now)
    ensures s.rows[id].status == BUFFERED ==> now - m.handled > w.grace
    ensures var k := |s.deletions|;
            var race := [Request(id)] + ([Mark(k, true)] + ([Unlink(k)] + ([Keep(id)] + [])));
            IsRun(s, race) && !VisibleOnDisk(After(s, race))
  {
    hide UniquePaths, WatermarksSound, NoGap, OnlyRecorded, ScanSound, DeletionsSound, Touches;
    if s.rows[id].status == BUFFERED {
      ExpiryWaitsForGrace(w, s.rows[id], m, now);
    }
    assert s.rows[id].FilePath() in s.disk;
    DeletedThenKept(s, id);
  }

  lemma DeletedThenKept(s: Catalogue, id: RecordingId)
    requires id in s.rows && s.rows[id].FilePath() in s.disk
    ensures var k := |s.deletions|;
            var race := [Request(id)] + ([Mark(k, true)] + ([Unlink(k)] + ([Keep(id)] + [])));
            IsRun(s, race) && !VisibleOnDisk(After(s, race))
  {
    hide IsRun, After, Apply, Enabled;
    var k := |s.deletions|;
    RequestAndMark(s, id);
    var s1 := Apply(s, Request(id));
    var s2 := Apply(s1, Mark(k, true));
    UnlinkAndKeep(s2, k);
    var s3 := Apply(s2, Unlink(k));
    var s4 := Apply(s3, Keep(id));
    NoSteps(s4);
    RunCons(s3, Keep(id), []);
    RunCons(s2, Unlink(k), [Keep(id)] + []);
    RunCons(s1, Mark(k, true), [Unlink(k)] + ([Keep(id)] + []));
    RunCons(s, Request(id), [Mark(k, true)] + ([Unlink(k)] + ([Keep(id)] + [])));
  }

  lemma RequestAndMark(s: Catalogue, id: RecordingId)
    requires id in s.rows
    ensures Enabled(s, Request(id))
    ensures var k := |s.deletions|;
            var s1 := Apply(s, Request(id));
            && Enabled(s1, Mark(k, true))
            && var s2 := Apply(s1, Mark(k, true));
               && Running(s2, k, Marked) && s2.deletions[k].id == id && s2.deletions[k].path == s.rows[id].FilePath()
               && s2.disk == s.disk && id in s2.rows && s2.rows[id].FilePath() == s.rows[id].FilePath()
  {
  }

  lemma UnlinkAndKeep(s: Catalogue, k: nat)
    requires Running(s, k, Marked) && s.deletions[k].path in s.disk
    requires s.deletions[k].id in s.rows && s.rows[s.deletions[k].id].FilePath() == s.deletions[k].path
    ensures Enabled(s, Unlink(k))
    ensures var id := s.deletions[k].id;
            var s1 := Apply(s, Unlink(k));
            && Enabled(s1, Keep(id)) && !VisibleOnDisk(Apply(s1, Keep(id)))
  {
    var id := s.deletions[k].id;
    var s2 := Apply(Apply(s, Unlink(k)), Keep(id));
    assert s2.rows[id].FilePath() !in s2.disk;
  }

  lemma NoSteps(s: Catalogue)
    ensures IsRun(s, []) && After(s, []) == s
  {
  }
}
