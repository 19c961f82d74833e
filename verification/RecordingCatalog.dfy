/** The catalog's two-phase delete and its crash recovery (src/recordings/recording-catalog.ts),
  * run without interruption; CatalogueProtocol has their steps interleaved and interrupted. */
module RecordingCatalog {
  import opened Options
  import opened RecordingTypes
  import opened CatalogueProtocol
  import opened CatalogueSafety
  import opened RecordingStore

  datatype DeletionResult =
    | Deleted(freedBytes: nat, wasStale: bool)
    | DeletionFailed            // reported to the caller
    | DeletionThrew             // the database failed while dropping a stale row

  /** What the database does with the three writes of one delete. A failed status update goes unnoticed; a failed drop
    * throws. */
  datatype Database = Database(markLost: bool, garbageLost: bool, dropFails: bool)

  datatype Reconciled =
    | Recovered
    | Discarded                 // counted as garbage
    | ReconcileThrew            // the database failed while dropping a stale row

  const RECONCILE_LIMIT := 200

  /** Ending every running operation keeps the invariant. */
  lemma QuietKeeps(s: Catalogue)
    requires Inv(s)
    ensures Inv(s.(scan := None, deletions := []))
  {
  }

  /** An id and path as a caller reads them from a row that exists or has existed. */
  ghost predicate HandedOut(s: Catalogue, id: RecordingId, path: SegmentPath) {
    DeletionSound(s, Deletion(id, path, Requested))
  }

  /** The steps of one whole delete, in order; `d` is its first state. */
  ghost function Deleting(s: Catalogue, d: Deletion): Catalogue {
    s.(deletions := [d])
  }

  lemma MarkQuiet(s: Catalogue, id: RecordingId, path: SegmentPath)
    requires Inv(s) && s.deletions == [] && HandedOut(s, id, path)
    ensures Inv(Deleting(s, Deletion(id, path, Requested)))
    ensures Inv(Deleting(s.(rows := WithStatus(s.rows, id, DELETE_PENDING)), Deletion(id, path, Marked)))
    ensures !(id in s.rows && Visible(s.rows[id].status)) ==> Inv(Deleting(s, Deletion(id, path, Marked)))
  {
    hide Inv;
    var s1 := Deleting(s, Deletion(id, path, Requested));
    AppendKeeps(s, Deletion(id, path, Requested));
    assert s.deletions + [Deletion(id, path, Requested)] == [Deletion(id, path, Requested)];
    MarkKeepsIff(s1, 0, true);
    assert Apply(s1, Mark(0, true))
        == Deleting(s.(rows := WithStatus(s.rows, id, DELETE_PENDING)), Deletion(id, path, Marked));
    MarkKeepsIff(s1, 0, false);
    assert Apply(s1, Mark(0, false)) == Deleting(s, Deletion(id, path, Marked));
  }

  lemma UnlinkQuiet(s: Catalogue, id: RecordingId, path: SegmentPath)
    requires Inv(Deleting(s, Deletion(id, path, Marked)))
    ensures Inv(Deleting(s.(disk := s.disk - {path}), Deletion(id, path, Gone)))
  {
    var s1 := Deleting(s, Deletion(id, path, Marked));
    if path in s.disk {
      UnlinkKeeps(s1, 0);
      assert Apply(s1, Unlink(0)) == Deleting(s.(disk := s.disk - {path}), Deletion(id, path, Gone));
    } else {
      FindNoFileKeeps(s1, 0);
      assert Apply(s1, FindNoFile(0)) == Deleting(s, Deletion(id, path, Gone));
      assert s.disk - {path} == s.disk;
    }
  }

  lemma DropQuiet(s: Catalogue, id: RecordingId, path: SegmentPath)
    requires Inv(Deleting(s, Deletion(id, path, Gone)))
    ensures Inv(s.(rows := s.rows - {id}, scan := None, deletions := []))
  {
    var s1 := Deleting(s, Deletion(id, path, Gone));
    DropRowKeeps(s1, 0);
    QuietKeeps(Apply(s1, DropRow(0)));
  }

  lemma GarbageQuiet(s: Catalogue, d: Deletion)
    requires Inv(Deleting(s, d))
    ensures Inv(s.(rows := WithStatus(s.rows, d.id, GARBAGE), scan := None, deletions := []))
  {
    GarbageKeeps(Deleting(s, d), 0, true);
    QuietKeeps(Deleting(s, d).(rows := WithStatus(s.rows, d.id, GARBAGE), deletions := [d.(phase := Finished)]));
  }

  lemma HandedOutMeans(s: Catalogue, id: RecordingId, path: SegmentPath)
    requires Inv(s) && HandedOut(s, id, path)
    ensures id in s.rows ==> s.rows[id].FilePath() == path && (Visible(s.rows[id].status) ==> path in s.disk)
    ensures path in s.disk ==> id in s.rows
  {
  }

  /** The rows after the first phase. */
  function Marking(rows: map<RecordingId, Recording>, id: RecordingId, lost: bool): map<RecordingId, Recording> {
    if lost then rows else WithStatus(rows, id, DELETE_PENDING)
  }

  /** The file was missing: the row goes, or stays as it was marked. */
  lemma StaleQuiet(s: Catalogue, id: RecordingId, path: SegmentPath, lost: bool)
    requires Inv(s) && s.scan.None? && s.deletions == [] && HandedOut(s, id, path) && path !in s.disk
    ensures Inv(s.(rows := Marking(s.rows, id, lost)))
    ensures Inv(s.(rows := Marking(s.rows, id, lost) - {id}))
  {
    hide Inv, HandedOut;
    MarkQuiet(s, id, path);
    HandedOutMeans(s, id, path);
    var marked := s.(rows := WithStatus(s.rows, id, DELETE_PENDING));
    UnlinkQuiet(marked, id, path);
    assert marked.(disk := marked.disk - {path}) == marked;
    DropQuiet(marked, id, path);
    QuietKeeps(Deleting(marked, Deletion(id, path, Marked)));
    assert WithStatus(s.rows, id, DELETE_PENDING) - {id} == s.rows - {id};
  }

  /** The unlink was refused: the file stays, and the row stays as it was marked or becomes GARBAGE. */
  lemma RefusedQuiet(s: Catalogue, id: RecordingId, path: SegmentPath, lost: bool)
    requires Inv(s) && s.scan.None? && s.deletions == [] && HandedOut(s, id, path)
    ensures Inv(s.(rows := Marking(s.rows, id, lost)))
    ensures Inv(s.(rows := WithStatus(Marking(s.rows, id, lost), id, GARBAGE)))
  {
    hide Inv, HandedOut;
    MarkQuiet(s, id, path);
    var marked := s.(rows := WithStatus(s.rows, id, DELETE_PENDING));
    QuietKeeps(Deleting(marked, Deletion(id, path, Marked)));
    GarbageQuiet(s, Deletion(id, path, Requested));
    assert WithStatus(marked.rows, id, GARBAGE) == WithStatus(s.rows, id, GARBAGE);
  }

  /** The file is gone: the row goes, becomes GARBAGE, or stays as it was marked; only the last can leave it visible. */
  lemma UnlinkedQuiet(s: Catalogue, id: RecordingId, path: SegmentPath, lost: bool)
    requires Inv(s) && s.scan.None? && s.deletions == [] && HandedOut(s, id, path) && path in s.disk
    ensures var gone := s.(disk := s.disk - {path}, rows := Marking(s.rows, id, lost));
            && Inv(gone.(rows := gone.rows - {id}))
            && Inv(gone.(rows := WithStatus(gone.rows, id, GARBAGE)))
            && (Inv(gone) <==> !(lost && Visible(s.rows[id].status)))
  {
    hide Inv, HandedOut;
    MarkQuiet(s, id, path);
    HandedOutMeans(s, id, path);
    var marked := s.(rows := WithStatus(s.rows, id, DELETE_PENDING));
    UnlinkQuiet(marked, id, path);
    var gone := marked.(disk := marked.disk - {path});
    DropQuiet(gone, id, path);
    GarbageQuiet(gone, Deletion(id, path, Gone));
    QuietKeeps(Deleting(gone, Deletion(id, path, Gone)));
    assert WithStatus(marked.rows, id, GARBAGE) == WithStatus(s.rows, id, GARBAGE);
    assert marked.rows - {id} == s.rows - {id};
    if lost && !Visible(s.rows[id].status) {
      UnlinkQuiet(s, id, path);
      QuietKeeps(Deleting(s.(disk := s.disk - {path}), Deletion(id, path, Gone)));
    } else if lost {
      VisibleWithoutFile(s.(disk := s.disk - {path}), id);
    }
  }

  lemma VisibleWithoutFile(s: Catalogue, id: RecordingId)
    requires id in s.rows && Visible(s.rows[id].status) && s.rows[id].FilePath() !in s.disk
    ensures !Inv(s)
  {
    assert !VisibleOnDisk(s);
  }

  /** The one combination of failures that leaves a visible row without its file. */
  predicate LosesFile(
    rows: map<RecordingId, Recording>, files: map<SegmentPath, SegmentFile>, id: RecordingId, path: SegmentPath,
    refused: bool, db: Database)
  {
    && db.markLost && db.dropFails && db.garbageLost && !refused
    && path in files && id in rows && Visible(rows[id].status)
  }

  /** Rows other than those of `ids` are untouched, and none appears. */
  ghost predicate OthersUntouched(
    before: map<RecordingId, Recording>, after: map<RecordingId, Recording>, ids: set<RecordingId>)
  {
    && after.Keys <= before.Keys
    && forall id :: id in before && id !in ids ==> id in after && after[id] == before[id]
  }

  /** Of several statuses of one row the last stays; all other rows are untouched. */
  lemma StatusesOverwrite(rows: map<RecordingId, Recording>, id: RecordingId)
    ensures forall first, last ::
              WithStatus(WithStatus(rows, id, first), id, last) == WithStatus(rows, id, last)
    ensures forall first, last :: OthersUntouched(rows, WithStatus(WithStatus(rows, id, first), id, last), {id})
    ensures forall status :: WithStatus(rows, id, status).Keys == rows.Keys
    ensures forall status :: WithStatus(rows, id, status) - {id} == rows - {id}
    ensures forall status :: OthersUntouched(rows, WithStatus(rows, id, status), {id})
    ensures OthersUntouched(rows, rows, {id}) && OthersUntouched(rows, rows - {id}, {id})
    ensures id in rows ==> WithStatus(rows, id, rows[id].status) == rows
    ensures id !in rows ==> forall status :: WithStatus(rows, id, status) == rows
  {
  }

  class RecordingCatalog {
    const store: Store

    constructor (store: Store)
      ensures this.store == store
    {
      this.store := store;
    }

    /** The two-phase delete with whatever goes wrong: `refused` when the file system refuses the unlink (EPERM, EROFS,
      * EBUSY), `db` for the database. A sound catalogue is sound afterwards if and only if not all three of its
      * writes failed on a visible row whose file was unlinked. `watermarks` only frames the invariant. */
    method DeleteSegmentInternal(
      id: RecordingId, path: SegmentPath, reportedSize: nat, refused: bool, db: Database,
      ghost watermarks: map<CameraId, Watermark>)
      returns (result: DeletionResult)
      modifies store`rows, store`files
      ensures Inv(old(store.Quiet(watermarks))) && HandedOut(old(store.Quiet(watermarks)), id, path) ==>
                (Inv(store.Quiet(watermarks)) <==>
                 !LosesFile(old(store.rows), old(store.files), id, path, refused, db))
      ensures OthersUntouched(old(store.rows), store.rows, {id})
      ensures store.files == if refused then old(store.files) else old(store.files) - {path}
      ensures result.Deleted? <==> id in old(store.rows) && !db.dropFails && (refused ==> path !in old(store.files))
      ensures result.Deleted? ==> id !in store.rows && path !in store.files
      ensures result.Deleted? ==> (result.wasStale <==> path !in old(store.files))
      ensures result.Deleted? ==> result.freedBytes == if result.wasStale then 0 else reportedSize
      ensures result.DeletionThrew? <==>
                path !in old(store.files) && (db.dropFails || id !in old(store.rows))
      ensures !result.Deleted? && id in old(store.rows) ==>
                store.rows == WithStatus(old(store.rows), id,
                                         if result.DeletionFailed? && !db.garbageLost then GARBAGE
                                         else if !db.markLost then DELETE_PENDING
                                         else old(store.rows)[id].status)
    {
      hide Inv, HandedOut, WithStatus, OthersUntouched;
      StatusesOverwrite(store.rows, id);
      ghost var before := store.Quiet(watermarks);
      ghost var sound := Inv(before) && HandedOut(before, id, path);
      // Phase 1: mark DELETE_PENDING
      if !db.markLost {
        store.UpdateRecordingStatus(id, DELETE_PENDING);
      }

      // Phase 2: unlink
      if path !in store.files {
        if sound {
          StaleQuiet(before, id, path, db.markLost);
        }
        var ok := store.DeleteRecording(id, db.dropFails);
        return if ok then Deleted(0, true) else DeletionThrew;
      }
      if refused {
        if sound {
          RefusedQuiet(before, id, path, db.markLost);
        }
        if !db.garbageLost {
          store.UpdateRecordingStatus(id, GARBAGE);
        }
        return DeletionFailed;
      }
      store.files := store.files - {path};

      // Phase 3: drop the row
      if sound {
        HandedOutMeans(before, id, path);
        UnlinkedQuiet(before, id, path, db.markLost);
      }
      var dropped := store.DeleteRecording(id, db.dropFails);
      if !dropped {
        if !db.garbageLost {
          store.UpdateRecordingStatus(id, GARBAGE);
        }
        return DeletionFailed;
      }
      return Deleted(reportedSize, false);
    }

    /** One DELETE_PENDING row. `db.markLost` plays no part: the row is marked already. */
    method ReconcileOne(id: RecordingId, refused: bool, db: Database, ghost watermarks: map<CameraId, Watermark>)
      returns (result: Reconciled)
      requires Inv(store.Quiet(watermarks)) && id in store.rows && store.rows[id].status == DELETE_PENDING
      modifies store`rows, store`files
      ensures Inv(store.Quiet(watermarks))
      ensures OthersUntouched(old(store.rows), store.rows, {id})
      ensures var path := old(store.rows[id].FilePath());
              && (store.files == if refused then old(store.files) else old(store.files) - {path})
              && (result.Recovered? <==> !db.dropFails && (refused ==> path !in old(store.files)))
              && (result.Recovered? ==> id !in store.rows && path !in store.files)
              && (result.ReconcileThrew? <==> db.dropFails && path !in old(store.files))
      ensures result.ReconcileThrew? ==> store.rows == old(store.rows)
      ensures !result.Recovered? ==>
                && id in store.rows
                && store.rows[id].status == if result.Discarded? && !db.garbageLost then GARBAGE else DELETE_PENDING
    {
      hide Inv;
      ghost var before := store.Quiet(watermarks);
      var path := store.rows[id].FilePath();
      PendingQuiet(before, id);
      if path in store.files {
        if refused {
          if !db.garbageLost {
            store.UpdateRecordingStatus(id, GARBAGE);
          }
          return Discarded;
        }
        store.files := store.files - {path};
        var dropped := store.DeleteRecording(id, db.dropFails);
        if !dropped {
          if !db.garbageLost {
            store.UpdateRecordingStatus(id, GARBAGE);
          }
          return Discarded;
        }
        return Recovered;
      }
      assert store.files - {path} == store.files;
      var dropped := store.DeleteRecording(id, db.dropFails);
      return if dropped then Recovered else ReconcileThrew;
    }

    /** Finishes deletes interrupted by a crash: `dropFails` and `garbageLost` are the rows the database fails on. Up to
      * 200 rows are taken, oldest first, until a drop throws; each loses its row and its file, or becomes GARBAGE
      * because its file cannot be removed or its row not be dropped. When it took all, no DELETE_PENDING row is left
      * but those whose GARBAGE mark was lost. */
    method ReconcilePendingDeletions(
      refused: set<SegmentPath>, dropFails: set<RecordingId>, garbageLost: set<RecordingId>,
      ghost watermarks: map<CameraId, Watermark>)
      returns (threw: bool, recovered: nat, garbage: nat, ghost picked: set<RecordingId>)
      requires Inv(store.Quiet(watermarks))
      modifies store`rows, store`files
      ensures Inv(store.Quiet(watermarks))
      ensures forall id :: id in picked ==> id in old(store.rows) && old(store.rows)[id].status == DELETE_PENDING
      ensures |picked| <= 200
      ensures threw ==> dropFails != {}
      ensures !threw && |picked| < 200 ==>
                forall id :: id in store.rows && store.rows[id].status == DELETE_PENDING ==> id in garbageLost
      ensures OthersUntouched(old(store.rows), store.rows, picked)
      ensures forall id :: id in picked ==>
                Settled(old(store.rows), store.rows, store.files.Keys, Failures(refused, dropFails, garbageLost), id)
      ensures recovered + garbage == |picked| && garbage == |picked * store.rows.Keys|
    {
      hide Inv, OldestOf, Progress;
      var pending := store.FindRecordingsByStatus(DELETE_PENDING, RECONCILE_LIMIT);
      recovered, garbage, picked := 0, 0, {};
      ghost var before := store.rows;
      ghost var failures := Failures(refused, dropFails, garbageLost);
      TakenAre(before, PendingIds(before), pending);
      NoProgress(before, store.files.Keys, failures);
      for i := 0 to |pending|
        invariant Inv(store.Quiet(watermarks))
        invariant forall j :: 0 <= j < |pending| ==> (pending[j] in picked <==> j < i)
        invariant |picked| == i
        invariant Progress(before, store.rows, store.files.Keys, failures, picked, recovered, garbage)
      {
        var id := pending[i];
        ghost var rows, disk := store.rows, store.files.Keys;
        ProgressSpares(before, rows, disk, failures, picked, recovered, garbage, id);
        var db := Database(false, id in garbageLost, id in dropFails);
        var result := ReconcileOne(id, store.rows[id].FilePath() in refused, db, watermarks);
        if result == ReconcileThrew {
          ProgressMeans(before, rows, disk, failures, picked, recovered, garbage);
          assert store.files.Keys == disk;
          return true, recovered, garbage, picked;
        }
        ProgressStep(before, rows, disk, store.rows, store.files.Keys, failures, picked, recovered, garbage, id);
        picked := picked + {id};
        if result == Recovered {
          recovered := recovered + 1;
        } else {
          garbage := garbage + 1;
        }
      }
      ProgressMeans(before, store.rows, store.files.Keys, failures, picked, recovered, garbage);
      if |pending| < RECONCILE_LIMIT {
        assert PendingIds(before) <= picked;
        NoneLeft(before, store.rows, store.files.Keys, failures, picked, recovered, garbage);
      }
      return false, recovered, garbage, picked;
    }
  }

  /** The unlinks, drops and GARBAGE marks that fail during a reconciliation. */
  datatype Failures = Failures(refused: set<SegmentPath>, drops: set<RecordingId>, marks: set<RecordingId>)

  /** A DELETE_PENDING row with its file refused, removed, or missing, and its row kept or gone. */
  lemma PendingQuiet(s: Catalogue, id: RecordingId)
    requires Inv(s) && s.scan.None? && s.deletions == [] && id in s.rows && s.rows[id].status == DELETE_PENDING
    ensures var gone := s.(disk := s.disk - {s.rows[id].FilePath()});
            && Inv(s.(rows := WithStatus(s.rows, id, GARBAGE)))
            && Inv(gone) && Inv(gone.(rows := gone.rows - {id}))
                && Inv(gone.(rows := WithStatus(gone.rows, id, GARBAGE)))
  {
    hide Inv;
    var path := s.rows[id].FilePath();
    var d := Deletion(id, path, Marked);
    PendingHandedOut(s, id);
    AppendKeeps(s, d);
    assert s.deletions + [d] == [d];
    GarbageQuiet(s, d);
    UnlinkQuiet(s, id, path);
    var gone := s.(disk := s.disk - {path});
    DropQuiet(gone, id, path);
    GarbageQuiet(gone, Deletion(id, path, Gone));
    QuietKeeps(Deleting(gone, Deletion(id, path, Gone)));
  }

  lemma PendingHandedOut(s: Catalogue, id: RecordingId)
    requires Inv(s) && id in s.rows && s.rows[id].status == DELETE_PENDING
    ensures DeletionSound(s, Deletion(id, s.rows[id].FilePath(), Marked))
  {
  }

  /** What reconciliation makes of a DELETE_PENDING row: dropped with its file; or GARBAGE because its file was refused
    * or its drop failed, and still DELETE_PENDING if that mark was lost too. */
  ghost predicate Settled(
    before: map<RecordingId, Recording>, rows: map<RecordingId, Recording>, disk: set<SegmentPath>, failures: Failures,
    id: RecordingId)
    requires id in before
  {
    if id in rows then
      && rows[id].status == (if id in failures.marks then DELETE_PENDING else GARBAGE)
      && (before[id].FilePath() in failures.refused || id in failures.drops)
    else before[id].FilePath() !in disk
  }

  function PendingIds(rows: map<RecordingId, Recording>): (ids: set<RecordingId>)
    ensures ids <= rows.Keys
  {
    set id | id in rows && rows[id].status == DELETE_PENDING
  }

  /** The rows `picked` so far are settled and counted; all others are as they were. */
  ghost predicate Progress(
    before: map<RecordingId, Recording>, rows: map<RecordingId, Recording>, disk: set<SegmentPath>, failures: Failures,
    picked: set<RecordingId>, recovered: nat, garbage: nat)
  {
    && (forall id :: id in picked ==> id in before && before[id].status == DELETE_PENDING)
    && OthersUntouched(before, rows, picked)
    && (forall id :: id in picked ==> Settled(before, rows, disk, failures, id))
    && recovered + garbage == |picked| && garbage == |picked * rows.Keys|
  }

  lemma NoProgress(rows: map<RecordingId, Recording>, disk: set<SegmentPath>, failures: Failures)
    ensures Progress(rows, rows, disk, failures, {}, 0, 0)
  {
    assert {} * rows.Keys == {};
  }

  lemma ProgressSpares(
    before: map<RecordingId, Recording>, rows: map<RecordingId, Recording>, disk: set<SegmentPath>, failures: Failures,
    picked: set<RecordingId>, recovered: nat, garbage: nat, id: RecordingId)
    requires Progress(before, rows, disk, failures, picked, recovered, garbage) && id in before && id !in picked
    ensures id in rows && rows[id] == before[id]
  {
  }

  lemma ProgressMeans(
    before: map<RecordingId, Recording>, rows: map<RecordingId, Recording>, disk: set<SegmentPath>, failures: Failures,
    picked: set<RecordingId>, recovered: nat, garbage: nat)
    requires Progress(before, rows, disk, failures, picked, recovered, garbage)
    ensures forall id :: id in picked ==> id in before && before[id].status == DELETE_PENDING
    ensures OthersUntouched(before, rows, picked)
    ensures forall id :: id in picked ==> Settled(before, rows, disk, failures, id)
    ensures recovered + garbage == |picked| && garbage == |picked * rows.Keys|
  {
  }

  lemma NoneLeft(
    before: map<RecordingId, Recording>, rows: map<RecordingId, Recording>, disk: set<SegmentPath>, failures: Failures,
    picked: set<RecordingId>, recovered: nat, garbage: nat)
    requires Progress(before, rows, disk, failures, picked, recovered, garbage) && PendingIds(before) <= picked
    ensures forall id :: id in rows && rows[id].status == DELETE_PENDING ==> id in failures.marks
  {
    forall id | id in rows && rows[id].status == DELETE_PENDING
      ensures id in failures.marks
    {
      assert id !in picked ==> id in PendingIds(before);
      assert Settled(before, rows, disk, failures, id);
    }
  }

  lemma ProgressStep(
    before: map<RecordingId, Recording>,
    rows: map<RecordingId, Recording>, disk: set<SegmentPath>,
    rows': map<RecordingId, Recording>, disk': set<SegmentPath>,
    failures: Failures, picked: set<RecordingId>, recovered: nat, garbage: nat, id: RecordingId)
    requires Progress(before, rows, disk, failures, picked, recovered, garbage)
    requires id in before && id in rows && id !in picked && before[id].status == DELETE_PENDING
    requires OthersUntouched(rows, rows', {id}) && disk' <= disk
    requires Settled(before, rows', disk', failures, id)
    ensures Progress(before, rows', disk', failures, picked + {id},
                     if id in rows' then recovered else recovered + 1, if id in rows' then garbage + 1 else garbage)
  {
    hide Settled, OthersUntouched;
    UntouchedStep(before, rows, rows', picked, id);
    KeptStep(rows, rows', picked, id);
    forall j | j in picked
      ensures Settled(before, rows', disk', failures, j)
    {
      SettledStays(before, rows, disk, rows', disk', failures, j, id);
    }
  }

  lemma UntouchedStep(
    before: map<RecordingId, Recording>, rows: map<RecordingId, Recording>, rows': map<RecordingId, Recording>,
    done: set<RecordingId>, id: RecordingId)
    requires OthersUntouched(before, rows, done) && OthersUntouched(rows, rows', {id})
    ensures OthersUntouched(before, rows', done + {id})
    ensures forall j :: j in rows' ==> j in rows
  {
  }

  lemma KeptStep(
    rows: map<RecordingId, Recording>, rows': map<RecordingId, Recording>, picked: set<RecordingId>, id: RecordingId)
    requires OthersUntouched(rows, rows', {id}) && id in rows && id !in picked
    ensures |(picked + {id}) * rows'.Keys| == |picked * rows.Keys| + (if id in rows' then 1 else 0)
  {
    assert (picked + {id}) * rows'.Keys == picked * rows.Keys + (if id in rows' then {id} else {});
  }

  lemma SettledStays(
    before: map<RecordingId, Recording>,
    rows: map<RecordingId, Recording>, disk: set<SegmentPath>,
    rows': map<RecordingId, Recording>, disk': set<SegmentPath>,
    failures: Failures, j: RecordingId, id: RecordingId)
    requires j in before && j != id && Settled(before, rows, disk, failures, j)
    requires OthersUntouched(rows, rows', {id}) && disk' <= disk
    ensures Settled(before, rows', disk', failures, j)
  {
  }

  lemma TakenAre(rows: map<RecordingId, Recording>, all: set<RecordingId>, taken: seq<RecordingId>)
    requires all <= rows.Keys && OldestOf(rows, all, taken)
    ensures forall i :: 0 <= i < |taken| ==> taken[i] in all
    ensures forall i, j :: 0 <= i < j < |taken| ==> taken[i] != taken[j]
  {
  }
}
