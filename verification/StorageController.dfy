/** Oldest-first deletion under the retention policy (src/recordings/storage-controller.ts): a
  * loop that pages over the list it is shrinking. */
module StorageController {
  import opened Options
  import opened RecordingTypes
  import opened RetentionPolicy

  /** Rows of the quarantined pass, or of every status. */
  datatype Pass = QuarantinedOnly | EveryStatus

  predicate InPass(pass: Pass, r: Recording) {
    pass == EveryStatus || r.status == QUARANTINED
  }

  /** The rows one pass pages over, oldest first. */
  function Matching(pass: Pass, rows: seq<Recording>): seq<Recording> {
    if rows == [] then []
    else
      var rest := Matching(pass, rows[..|rows| - 1]);
      var last := rows[|rows| - 1];
      if InPass(pass, last) then rest + [last] else rest
  }

  /** The rows a rule does not allow to go. */
  function Kept(rule: Rule, rows: seq<Recording>): seq<Recording> {
    if rows == [] then []
    else
      var rest := Kept(rule, rows[..|rows| - 1]);
      var last := rows[|rows| - 1];
      if rule.Allows(last) then rest else rest + [last]
  }

  /** The catalog without one row. */
  function Without(rows: seq<Recording>, id: RecordingId): seq<Recording> {
    if rows == [] then []
    else
      var rest := Without(rows[..|rows| - 1], id);
      var last := rows[|rows| - 1];
      if last.id == id then rest else rest + [last]
  }

  /** The catalog with one row turned GARBAGE. */
  function WithGarbage(rows: seq<Recording>, id: RecordingId): seq<Recording> {
    if rows == [] then []
    else
      var rest := WithGarbage(rows[..|rows| - 1], id);
      var last := rows[|rows| - 1];
      rest + [if last.id == id then last.(status := GARBAGE) else last]
  }

  function IdsOf(rows: seq<Recording>): set<RecordingId> {
    set i | 0 <= i < |rows| :: rows[i].id
  }

  /** The catalog after deletes: the rows of `gone` are no more, and those of `tried` that are left are GARBAGE. */
  function Swept(rows: seq<Recording>, gone: set<RecordingId>, tried: set<RecordingId>): seq<Recording> {
    if rows == [] then []
    else
      var rest := Swept(rows[..|rows| - 1], gone, tried);
      var last := rows[|rows| - 1];
      if last.id in gone then rest
      else rest + [if last.id in tried then last.(status := GARBAGE) else last]
  }

  /** Since the catalog was `before`, only what was deleted has gone, and only what was tried in vain is GARBAGE. */
  ghost predicate Sweeping(
    before: seq<Recording>, rows: seq<Recording>, first: seq<Recording>, deleted: seq<Recording>,
    tried: seq<Recording>, attempted: seq<Recording>)
  {
    && first <= deleted && tried <= attempted
    && rows == Swept(before, IdsOf(deleted[|first|..]), IdsOf(attempted[|tried|..]))
  }

  /** The rows are those there were without the ones `gone`, unchanged but for those `tried` in vain, now GARBAGE. */
  ghost predicate OnlySwept(
    before: seq<Recording>, rows: seq<Recording>, gone: set<RecordingId>, tried: set<RecordingId>)
  {
    forall r :: r in rows <==>
      exists o :: o in before && o.id !in gone && r == if o.id in tried then o.(status := GARBAGE) else o
  }

  ghost predicate DistinctIds(rows: seq<Recording>) {
    forall i, j :: 0 <= i < j < |rows| ==> rows[i].id != rows[j].id
  }

  // ---------------------------------------------------------------------
  // Lists
  // ---------------------------------------------------------------------

  lemma {:induction false} WithoutAbsent(rows: seq<Recording>, id: RecordingId)
    requires forall i :: 0 <= i < |rows| ==> rows[i].id != id
    ensures Without(rows, id) == rows
  {
    if rows == [] {
    } else {
      WithoutAbsent(rows[..|rows| - 1], id);
    }
  }

  lemma {:induction false} WithoutConcat(a: seq<Recording>, b: seq<Recording>, id: RecordingId)
    ensures Without(a + b, id) == Without(a, id) + Without(b, id)
  {
    if b == [] {
      assert a + b == a;
    } else {
      assert (a + b)[..|a + b| - 1] == a + b[..|b| - 1];
      WithoutConcat(a, b[..|b| - 1], id);
    }
  }

  lemma {:induction false} MatchingWithout(pass: Pass, rows: seq<Recording>, id: RecordingId)
    ensures Matching(pass, Without(rows, id)) == Without(Matching(pass, rows), id)
  {
    if rows == [] {
    } else {
      var init, last := rows[..|rows| - 1], rows[|rows| - 1];
      MatchingWithout(pass, init, id);
      if last.id != id {
        assert Without(rows, id)[..|Without(rows, id)| - 1] == Without(init, id);
      }
      if InPass(pass, last) {
        assert Matching(pass, rows)[..|Matching(pass, rows)| - 1] == Matching(pass, init);
      }
    }
  }

  lemma {:induction false} WithoutMembers(rows: seq<Recording>, id: RecordingId, r: Recording)
    ensures r in Without(rows, id) <==> r in rows && r.id != id
  {
    if rows == [] {
    } else {
      WithoutMembers(rows[..|rows| - 1], id, r);
      assert rows == rows[..|rows| - 1] + [rows[|rows| - 1]];
    }
  }

  lemma {:induction false} MatchingMembers(pass: Pass, rows: seq<Recording>, r: Recording)
    ensures r in Matching(pass, rows) <==> r in rows && InPass(pass, r)
  {
    if rows == [] {
    } else {
      MatchingMembers(pass, rows[..|rows| - 1], r);
      assert rows == rows[..|rows| - 1] + [rows[|rows| - 1]];
    }
  }

  lemma {:induction false} KeptMembers(rule: Rule, rows: seq<Recording>, r: Recording)
    ensures r in Kept(rule, rows) <==> r in rows && !rule.Allows(r)
  {
    if rows == [] {
    } else {
      KeptMembers(rule, rows[..|rows| - 1], r);
      assert rows == rows[..|rows| - 1] + [rows[|rows| - 1]];
    }
  }

  lemma {:induction false} DistinctWithout(rows: seq<Recording>, id: RecordingId)
    requires DistinctIds(rows)
    ensures DistinctIds(Without(rows, id))
    ensures |Without(rows, id)| <= |rows|
  {
    if rows == [] {
    } else {
      var init, last := rows[..|rows| - 1], rows[|rows| - 1];
      assert forall i, j :: 0 <= i < j < |init| ==> init[i].id != init[j].id;
      DistinctWithout(init, id);
      var rest := Without(init, id);
      forall i | 0 <= i < |rest|
        ensures rest[i].id != last.id
      {
        WithoutMembers(init, id, rest[i]);
        var k :| 0 <= k < |init| && init[k] == rest[i];
        assert rows[k].id != last.id;
      }
    }
  }

  lemma {:induction false} SameIds(rows: seq<Recording>, id: RecordingId)
    ensures |WithGarbage(rows, id)| == |rows|
    ensures forall i :: 0 <= i < |rows| ==> WithGarbage(rows, id)[i].id == rows[i].id
  {
    if rows == [] {
    } else {
      SameIds(rows[..|rows| - 1], id);
    }
  }

  lemma {:induction false} DistinctMatching(pass: Pass, rows: seq<Recording>)
    requires DistinctIds(rows)
    ensures DistinctIds(Matching(pass, rows))
  {
    if rows == [] {
    } else {
      var init, last := rows[..|rows| - 1], rows[|rows| - 1];
      assert forall i, j :: 0 <= i < j < |init| ==> init[i].id != init[j].id;
      DistinctMatching(pass, init);
      var rest := Matching(pass, init);
      forall i | 0 <= i < |rest|
        ensures rest[i].id != last.id
      {
        MatchingMembers(pass, init, rest[i]);
        var k :| 0 <= k < |init| && init[k] == rest[i];
        assert rows[k].id != last.id;
      }
    }
  }

  lemma {:induction false} EveryRowMatches(rows: seq<Recording>)
    ensures Matching(EveryStatus, rows) == rows
  {
    if rows == [] {
    } else {
      EveryRowMatches(rows[..|rows| - 1]);
    }
  }

  lemma KeptStep(rule: Rule, list: seq<Recording>, n: nat)
    requires n < |list|
    ensures Kept(rule, list[..n + 1])
            == if rule.Allows(list[n]) then Kept(rule, list[..n]) else Kept(rule, list[..n]) + [list[n]]
    ensures Allowed(rule, list[..n + 1])
            == if rule.Allows(list[n]) then Allowed(rule, list[..n]) + [list[n]] else Allowed(rule, list[..n])
  {
    assert list[..n + 1][..n] == list[..n];
  }

  /** Taking an examined row out of a half-examined list takes exactly that row out. */
  lemma RemoveExamined(rule: Rule, list: seq<Recording>, n: nat)
    requires n < |list| && DistinctIds(list)
    ensures Without(Kept(rule, list[..n]) + list[n..], list[n].id) == Kept(rule, list[..n]) + list[n + 1..]
  {
    hide Without, Kept;
    var kept := Kept(rule, list[..n]);
    WithoutConcat(kept, list[n..], list[n].id);
    forall i | 0 <= i < |kept|
      ensures kept[i].id != list[n].id
    {
      KeptMembers(rule, list[..n], kept[i]);
      var k :| 0 <= k < n && list[..n][k] == kept[i];
      assert list[k].id != list[n].id;
    }
    WithoutAbsent(kept, list[n].id);
    assert list[n..] == [list[n]] + list[n + 1..];
    WithoutConcat([list[n]], list[n + 1..], list[n].id);
    var tail := list[n + 1..];
    forall i | 0 <= i < |tail|
      ensures tail[i].id != list[n].id
    {
      assert tail[i] == list[n + 1 + i];
    }
    WithoutAbsent(tail, list[n].id);
    WithoutOnly(list[n]);
  }

  lemma WithoutOnly(r: Recording)
    ensures Without([r], r.id) == []
  {
    assert [r][..0] == [];
  }

  // ---------------------------------------------------------------------
  // The controller
  // ---------------------------------------------------------------------

  /** What the disk shows each time it is read, in the order of the readings, and the level to come down to. */
  datatype Pressure = Pressure(reading: nat -> int, target: int)

  /** The state of a pass without failures: `list` is what it started with, its first `n` rows are examined. */
  ghost predicate Examined(pass: Pass, rule: Rule, list: seq<Recording>, n: nat, rows: seq<Recording>, skip: nat) {
    && n <= |list|
    && Matching(pass, rows) == Kept(rule, list[..n]) + list[n..]
    && skip == |Kept(rule, list[..n])|
  }

  lemma HeldStep(pass: Pass, rule: Rule, list: seq<Recording>, n: nat, rows: seq<Recording>, skip: nat)
    requires Examined(pass, rule, list, n, rows, skip) && n < |list| && !rule.Allows(list[n])
    ensures Examined(pass, rule, list, n + 1, rows, skip + 1)
  {
    hide Matching, Kept, Allowed, Rule.Allows;
    KeptStep(rule, list, n);
    var kept, rest := Kept(rule, list[..n]), list[n + 1..];
    assert list[n..] == [list[n]] + rest;
    assert kept + ([list[n]] + rest) == (kept + [list[n]]) + rest;
  }

  lemma DeletedStep(pass: Pass, rule: Rule, list: seq<Recording>, n: nat, rows: seq<Recording>, skip: nat)
    requires Examined(pass, rule, list, n, rows, skip) && n < |list| && rule.Allows(list[n])
    requires DistinctIds(rows) && DistinctIds(list)
    ensures list[n] in rows
    ensures DistinctIds(Without(rows, list[n].id))
    ensures Examined(pass, rule, list, n + 1, Without(rows, list[n].id), skip)
  {
    hide Kept, Without, Matching, DistinctIds, Allowed, Rule.Allows;
    assert list[n..][0] == list[n];
    assert Matching(pass, rows)[|Kept(rule, list[..n])|] == list[n];
    MatchingMembers(pass, rows, list[n]);
    DistinctWithout(rows, list[n].id);
    MatchingWithout(pass, rows, list[n].id);
    RemoveExamined(rule, list, n);
    KeptStep(rule, list, n);
  }

  lemma {:induction false} SweptAgain(
    rows: seq<Recording>, gone: set<RecordingId>, tried: set<RecordingId>, gone': set<RecordingId>,
    tried': set<RecordingId>)
    ensures Swept(Swept(rows, gone, tried), gone', tried') == Swept(rows, gone + gone', tried + tried')
  {
    if rows == [] {
    } else {
      var init, last := rows[..|rows| - 1], rows[|rows| - 1];
      SweptAgain(init, gone, tried, gone', tried');
      if last.id !in gone {
        assert Swept(rows, gone, tried)[..|Swept(rows, gone, tried)| - 1] == Swept(init, gone, tried);
      }
    }
  }

  lemma {:induction false} NothingSwept(rows: seq<Recording>)
    ensures Swept(rows, {}, {}) == rows
  {
    if rows == [] {
    } else {
      NothingSwept(rows[..|rows| - 1]);
    }
  }

  lemma {:induction false} OneSwept(rows: seq<Recording>, id: RecordingId)
    ensures Swept(rows, {id}, {id}) == Without(rows, id)
    ensures Swept(rows, {}, {id}) == WithGarbage(rows, id)
  {
    if rows == [] {
    } else {
      OneSwept(rows[..|rows| - 1], id);
    }
  }

  lemma {:induction false} SweptMembers(
    rows: seq<Recording>, gone: set<RecordingId>, tried: set<RecordingId>, r: Recording)
    ensures r in Swept(rows, gone, tried) <==>
              exists o :: o in rows && o.id !in gone && r == if o.id in tried then o.(status := GARBAGE) else o
  {
    if rows == [] {
    } else {
      var init, last := rows[..|rows| - 1], rows[|rows| - 1];
      SweptMembers(init, gone, tried, r);
      assert rows == init + [last];
      var rest := Swept(init, gone, tried);
      if last.id !in gone {
        var kept := if last.id in tried then last.(status := GARBAGE) else last;
        assert Swept(rows, gone, tried) == rest + [kept];
      }
    }
  }

  lemma NoSweep(rows: seq<Recording>, deleted: seq<Recording>, attempted: seq<Recording>)
    ensures Sweeping(rows, rows, deleted, deleted, attempted, attempted)
  {
    NothingSwept(rows);
    assert deleted[|deleted|..] == [] && attempted[|attempted|..] == [] && IdsOf([]) == {};
  }

  lemma OneSweep(rows: seq<Recording>, deleted: seq<Recording>, attempted: seq<Recording>, segment: Recording)
    ensures Sweeping(rows, Without(rows, segment.id), deleted, deleted + [segment], attempted, attempted + [segment])
    ensures Sweeping(rows, WithGarbage(rows, segment.id), deleted, deleted, attempted, attempted + [segment])
  {
    OneSwept(rows, segment.id);
    assert (deleted + [segment])[|deleted|..] == [segment] && (attempted + [segment])[|attempted|..] == [segment];
    assert deleted[|deleted|..] == [] && IdsOf([]) == {};
    assert [segment][0].id in IdsOf([segment]);
    assert IdsOf([segment]) == {segment.id};
  }

  lemma SweepChain(
    r0: seq<Recording>, r1: seq<Recording>, r2: seq<Recording>,
    d0: seq<Recording>, d1: seq<Recording>, d2: seq<Recording>,
    a0: seq<Recording>, a1: seq<Recording>, a2: seq<Recording>)
    requires Sweeping(r0, r1, d0, d1, a0, a1) && Sweeping(r1, r2, d1, d2, a1, a2)
    ensures Sweeping(r0, r2, d0, d2, a0, a2)
  {
    hide Swept, IdsOf;
    SweptAgain(r0, IdsOf(d1[|d0|..]), IdsOf(a1[|a0|..]), IdsOf(d2[|d1|..]), IdsOf(a2[|a1|..]));
    IdsOfTail(d0, d1, d2);
    IdsOfTail(a0, a1, a2);
  }

  lemma SweepingMeans(
    before: seq<Recording>, rows: seq<Recording>, first: seq<Recording>, deleted: seq<Recording>,
    tried: seq<Recording>, attempted: seq<Recording>)
    requires Sweeping(before, rows, first, deleted, tried, attempted)
    ensures first <= deleted && tried <= attempted
    ensures OnlySwept(before, rows, IdsOf(deleted[|first|..]), IdsOf(attempted[|tried|..]))
  {
    hide Swept, IdsOf;
    forall r {
      SweptMembers(before, IdsOf(deleted[|first|..]), IdsOf(attempted[|tried|..]), r);
    }
  }

  lemma IdsOfTail(first: seq<Recording>, middle: seq<Recording>, last: seq<Recording>)
    requires first <= middle <= last
    ensures IdsOf(last[|first|..]) == IdsOf(middle[|first|..]) + IdsOf(last[|middle|..])
  {
    var a, b := middle[|first|..], last[|middle|..];
    assert last[|first|..] == a + b;
    forall id
      ensures id in IdsOf(a + b) <==> id in IdsOf(a) + IdsOf(b)
    {
      if id in IdsOf(a) {
        var i :| 0 <= i < |a| && a[i].id == id;
        assert (a + b)[i].id == id;
      }
      if id in IdsOf(b) {
        var i :| 0 <= i < |b| && b[i].id == id;
        assert (a + b)[|a| + i].id == id;
      }
      if id in IdsOf(a + b) {
        var i :| 0 <= i < |a + b| && (a + b)[i].id == id;
        assert i < |a| ==> a[i].id == id;
        assert i >= |a| ==> b[i - |a|].id == id;
      }
    }
  }

  /** `rows` are the rows of `before` that are not in `gone`. */
  ghost predicate OnlyGone(before: seq<Recording>, rows: seq<Recording>, gone: seq<Recording>) {
    forall r :: r in rows <==> r in before && r !in gone
  }

  lemma GoneStep(before: seq<Recording>, rows: seq<Recording>, gone: seq<Recording>, segment: Recording)
    requires OnlyGone(before, rows, gone) && DistinctIds(rows) && segment in rows
    ensures OnlyGone(before, Without(rows, segment.id), gone + [segment])
  {
    forall r
      ensures r in Without(rows, segment.id) <==> r in before && r !in gone + [segment]
    {
      WithoutMembers(rows, segment.id, r);
    }
  }

  /** Paging facts about a pass in which nothing fails. */
  ghost predicate Paging(
    pass: Pass, rule: Rule, list: seq<Recording>, n: nat, before: seq<Recording>, rows: seq<Recording>,
    gone: seq<Recording>, skip: nat)
  {
    DistinctIds(rows) && DistinctIds(list) && Examined(pass, rule, list, n, rows, skip) && OnlyGone(before, rows, gone)
  }

  lemma PagingStep(
    pass: Pass, rule: Rule, list: seq<Recording>, n: nat, before: seq<Recording>, rows: seq<Recording>,
    gone: seq<Recording>, skip: nat)
    requires Paging(pass, rule, list, n, before, rows, gone, skip) && n < |list|
    ensures !rule.Allows(list[n]) ==> Paging(pass, rule, list, n + 1, before, rows, gone, skip + 1)
    ensures rule.Allows(list[n]) ==>
              Paging(pass, rule, list, n + 1, before, Without(rows, list[n].id), gone + [list[n]], skip)
  {
    if rule.Allows(list[n]) {
      DeletedStep(pass, rule, list, n, rows, skip);
      GoneStep(before, rows, gone, list[n]);
    } else {
      HeldStep(pass, rule, list, n, rows, skip);
    }
  }

  /** `count` rows with `freed` bytes have been deleted since `first`. */
  ghost predicate Deletions(first: seq<Recording>, deleted: seq<Recording>, count: nat, freed: nat) {
    first <= deleted && count == |deleted| - |first| && freed == Bytes(deleted[|first|..])
  }

  lemma OneMoreDeletion(first: seq<Recording>, deleted: seq<Recording>, count: nat, freed: nat, segment: Recording)
    requires Deletions(first, deleted, count, freed)
    ensures Deletions(first, deleted + [segment], count + 1, freed + segment.sizeBytes)
  {
    var tail := (deleted + [segment])[|first|..];
    assert tail[..|tail| - 1] == deleted[|first|..];
  }

  lemma DeletionsMean(first: seq<Recording>, deleted: seq<Recording>, count: nat, freed: nat)
    requires Deletions(first, deleted, count, freed)
    ensures first <= deleted && count == |deleted| - |first| && freed == Bytes(deleted[|first|..])
  {
  }

  lemma SnocConcat(a: seq<Recording>, b: seq<Recording>, r: Recording)
    ensures a + (b + [r]) == (a + b) + [r]
  {
  }

  /** The batches of a run, each given by the number of deletions it started at: the first starts at `earlier`, each
    * other where the one before it ended, the last ends at `end`, none deletes more than a batch, and the reading
    * taken before each, the first of them the one numbered `taken`, was above the target. */
  ghost predicate StartedUnderPressure(
    p: Pressure, taken: nat, earlier: nat, starts: seq<nat>, end: nat, batchSize: nat)
  {
    if starts == [] then end == earlier
    else
      var last := |starts| - 1;
      && p.reading(taken + last) > p.target
      && starts[last] <= end <= starts[last] + batchSize
      && StartedUnderPressure(p, taken, earlier, starts[..last], starts[last], batchSize)
  }

  /** Deleted rows and freed bytes of a run. */
  datatype Tally = Tally(count: nat, bytes: nat)

  ghost predicate Counted(first: seq<Recording>, deleted: seq<Recording>, tally: Tally) {
    first <= deleted && tally == Tally(|deleted| - |first|, Bytes(deleted[|first|..]))
  }

  /** How one round of a pass ended. */
  datatype PageEnd = Continue | NothingLeft | Relieved | WholePageHeld

  /** What lies between the two passes of a run, how many rows each pass examined, and whether a reading at the target
    * ended the run. */
  datatype RunTrace = RunTrace(
    middle: seq<Recording>, halfway: seq<Recording>, first: nat, second: nat, stopped: bool)

  class StorageController {
    /** The catalog, in the repository's fixed oldest-first order. */
    var rows: seq<Recording>
    const retention: RetentionPolicy
    const batchSize: nat
    const maxIterations: nat
    /** Rows handed to the two-phase delete, and those it removed, in order. */
    ghost var attempted: seq<Recording>
    ghost var deleted: seq<Recording>

    constructor (retention: RetentionPolicy, batchSize: nat, maxIterations: nat)
      ensures this.retention == retention && this.batchSize == batchSize && this.maxIterations == maxIterations
      ensures rows == [] && attempted == [] && deleted == []
    {
      this.retention, this.batchSize, this.maxIterations := retention, batchSize, maxIterations;
      rows, attempted, deleted := [], [], [];
    }

    /** getOldestRecordings: one page of the pass. */
    function Page(pass: Pass, limit: nat, skip: nat): (page: seq<Recording>)
      reads this
      ensures |page| <= limit
      ensures skip <= |Matching(pass, rows)| ==> page <= Matching(pass, rows)[skip..]
      ensures skip <= |Matching(pass, rows)| && |page| < limit ==> page == Matching(pass, rows)[skip..]
    {
      var list := Matching(pass, rows);
      if skip >= |list| then []
      else if skip + limit <= |list| then list[skip..skip + limit]
      else list[skip..]
    }

    /** The two-phase delete, seen from here: the row goes, or turns GARBAGE when something fails. */
    method DeleteSegment(segment: Recording, fails: set<RecordingId>) returns (ok: bool)
      requires DistinctIds(rows)
      modifies this`rows, this`attempted, this`deleted
      ensures ok <==> segment.id !in fails
      ensures rows == if ok then Without(old(rows), segment.id) else WithGarbage(old(rows), segment.id)
      ensures attempted == old(attempted) + [segment]
      ensures deleted == if ok then old(deleted) + [segment] else old(deleted)
      ensures Sweeping(old(rows), rows, old(deleted), deleted, old(attempted), attempted)
      ensures DistinctIds(rows)
    {
      OneSweep(rows, deleted, attempted, segment);
      DistinctWithout(rows, segment.id);
      SameIds(rows, segment.id);
      ok := segment.id !in fails;
      attempted := attempted + [segment];
      if ok {
        deleted := deleted + [segment];
        rows := Without(rows, segment.id);
      } else {
        rows := WithGarbage(rows, segment.id);
      }
    }

    /** The rows of one page, one after the other. `list`, `n` and `gone` say where the pass stands. */
    method RunBatch(
      candidates: seq<Recording>, deletable: seq<Recording>, fails: set<RecordingId>, skip: nat,
      ghost pass: Pass, ghost rule: Rule, ghost list: seq<Recording>, ghost n: nat, ghost before: seq<Recording>,
      ghost gone: seq<Recording>)
      returns (skip': nat, batchDeleted: nat, freed: nat)
      requires DistinctIds(rows) && deletable == Allowed(rule, candidates)
      requires fails == {} ==> Paging(pass, rule, list, n, before, rows, gone, skip)
      requires fails == {} ==> n + |candidates| <= |list| && candidates == list[n..n + |candidates|]
      modifies this`rows, this`attempted, this`deleted
      ensures attempted == old(attempted) + deletable
      ensures fails == {} ==> deleted == old(deleted) + deletable
      ensures fails == {} ==>
                Paging(pass, rule, list, n + |candidates|, before, rows, gone + deletable, skip')
      ensures old(deleted) <= deleted
      ensures batchDeleted == |deleted| - |old(deleted)| && batchDeleted <= |candidates|
      ensures skip <= skip' && skip' + batchDeleted == skip + |candidates|
      ensures DistinctIds(rows)
      ensures freed == Bytes(deleted[|old(deleted)|..])
      ensures Sweeping(old(rows), rows, old(deleted), deleted, old(attempted), attempted)
    {
      hide *;
      skip', batchDeleted, freed := skip, 0, 0;
      NoSweep(rows, deleted, attempted);
      NothingOfPage(rule, candidates, deleted);
      ghost var done: seq<Recording> := [];
      assert gone + [] == gone && attempted + [] == attempted && deleted + [] == deleted;
      for i := 0 to |candidates|
        invariant DistinctIds(rows) && done == Allowed(rule, candidates[..i])
        invariant attempted == old(attempted) + done
        invariant fails == {} ==> deleted == old(deleted) + done
        invariant fails == {} ==> Paging(pass, rule, list, n + i, before, rows, gone + done, skip')
        invariant Deletions(old(deleted), deleted, batchDeleted, freed)
        invariant batchDeleted <= i && skip <= skip' && skip' + batchDeleted == skip + i
        invariant Sweeping(old(rows), rows, old(deleted), deleted, old(attempted), attempted)
      {
        var segment := candidates[i];
        KeptStep(rule, candidates, i);
        AllowedMembers(rule, candidates, segment);
        if fails == {} {
          assert segment == list[n + i];
        }
        ghost var start, tried, next, was := deleted, attempted, done + [segment], rows;
        var removed;
        skip', removed :=
          RunOne(segment, segment in deletable, fails, skip', pass, rule, list, n + i, before, gone + done);
        SweepChain(old(rows), was, rows, old(deleted), start, deleted, old(attempted), tried, attempted);
        if rule.Allows(segment) {
          SnocConcat(gone, done, segment);
          SnocConcat(old(attempted), done, segment);
          SnocConcat(old(deleted), done, segment);
          assert attempted == tried + [segment] == old(attempted) + next;
          assert fails == {} ==> deleted == start + [segment] == old(deleted) + next;
          done := next;
        } else {
          assert attempted == tried && deleted == start;
        }
        if removed {
          OneMoreDeletion(old(deleted), start, batchDeleted, freed, segment);
          batchDeleted, freed := batchDeleted + 1, freed + segment.sizeBytes;
        }
      }
      assert candidates[..|candidates|] == candidates;
      DeletionsMean(old(deleted), deleted, batchDeleted, freed);
    }

    /** One candidate: held rows and failed deletes are skipped from now on. */
    method RunOne(
      segment: Recording, deletable: bool, fails: set<RecordingId>, skip: nat,
      ghost pass: Pass, ghost rule: Rule, ghost list: seq<Recording>, ghost n: nat, ghost before: seq<Recording>,
      ghost gone: seq<Recording>)
      returns (skip': nat, removed: bool)
      requires DistinctIds(rows) && deletable == rule.Allows(segment)
      requires fails == {} ==> n < |list| && segment == list[n] && Paging(pass, rule, list, n, before, rows, gone, skip)
      modifies this`rows, this`attempted, this`deleted
      ensures DistinctIds(rows)
      ensures if deletable then attempted == old(attempted) + [segment] else attempted == old(attempted) && !removed
      ensures if removed then deleted == old(deleted) + [segment] else deleted == old(deleted)
      ensures fails == {} ==> removed == deletable
      ensures skip' == if removed then skip else skip + 1
      ensures Sweeping(old(rows), rows, old(deleted), deleted, old(attempted), attempted)
      ensures fails == {} && deletable ==>
                Paging(pass, rule, list, n + 1, before, rows, gone + [segment], skip')
      ensures fails == {} && !deletable ==> Paging(pass, rule, list, n + 1, before, rows, gone, skip')
    {
      hide *;
      if fails == {} {
        PagingStep(pass, rule, list, n, before, rows, gone, skip);
      }
      if !deletable {
        NoSweep(rows, deleted, attempted);
        return skip + 1, false;
      }
      removed := DeleteSegment(segment, fails);
      skip' := if removed then skip else skip + 1;
    }

    /** One page of a pass: ask the policy, delete what it allows. */
    method RunPage(
      pass: Pass, mode: RetentionMode, overrideDays: Option<int>, fails: set<RecordingId>,
      candidates: seq<Recording>, skip: nat, tally: Tally,
      ghost before: seq<Recording>, ghost tried: seq<Recording>, ghost first: seq<Recording>, ghost n: nat,
      ghost room: nat)
      returns (skip': nat, tally': Tally)
      requires DistinctIds(rows) && Counted(first, deleted, tally)
          && OnlyAttempts(retention.CurrentRule(mode, overrideDays), tried, attempted)
      requires fails == {} ==>
          PassState(pass, retention.CurrentRule(mode, overrideDays), before, rows, first, deleted, n, skip, room)
      requires fails == {} ==> IsPage(Matching(pass, before), n, candidates, batchSize)
      modifies this`rows, this`attempted, this`deleted
      ensures OnlyAttempts(retention.CurrentRule(mode, overrideDays), tried, attempted)
      ensures DistinctIds(rows) && Counted(first, deleted, tally')
      ensures tally.count <= tally'.count && skip <= skip' && skip' + tally'.count == skip + tally.count + |candidates|
      ensures Sweeping(old(rows), rows, old(deleted), deleted, old(attempted), attempted)
      ensures fails == {} ==>
                PassState(pass, retention.CurrentRule(mode, overrideDays), before, rows, first, deleted,
                          n + |candidates|, skip', room + batchSize)
    {
      hide *;
      ghost var rule := retention.CurrentRule(mode, overrideDays);
      if fails == {} {
        PassStateMeans(pass, rule, before, rows, first, deleted, n, skip, room);
        PageMeans(Matching(pass, before), n, candidates, batchSize);
      }
      ghost var gone := if fails == {} then Allowed(rule, Matching(pass, before)[..n]) else [];
      var deletable := retention.Deletable(candidates, mode, overrideDays);
      var batchDeleted, bytes;
      skip', batchDeleted, bytes :=
        RunBatch(candidates, deletable, fails, skip, pass, rule, Matching(pass, before), n, before, gone);
      tally' := Tally(tally.count + batchDeleted, tally.bytes + bytes);
      AttemptsGrow(rule, tried, old(attempted), candidates);
      CountedStep(first, old(deleted), deleted, tally, batchDeleted, bytes);
      if fails == {} {
        PassStep(pass, rule, before, rows, first, old(deleted), deleted, n, candidates, skip', room, batchSize);
      }
    }

    /** One pass, without its early return: pages until nothing is left, a whole page is held, pressure is relieved
      * or the iteration cap is reached. `taken` readings and `earlier` deletions came before; `examined` counts the
      * rows looked at when nothing fails. */
    method RunPass(
      pass: Pass, mode: RetentionMode, overrideDays: Option<int>, pressure: Option<Pressure>, fails: set<RecordingId>,
      taken: nat, ghost earlier: nat)
      returns (tally: Tally, stopped: bool, allHeld: bool, batches: nat, ghost examined: nat, ghost starts: seq<nat>)
      requires DistinctIds(rows)
      modifies this`rows, this`attempted, this`deleted
      ensures batches <= maxIterations
      ensures OnlyAttempts(retention.CurrentRule(mode, overrideDays), old(attempted), attempted)
      ensures DistinctIds(rows) && Counted(old(deleted), deleted, tally)
      ensures Sweeping(old(rows), rows, old(deleted), deleted, old(attempted), attempted)
      ensures fails == {} ==>
                PassDone(pass, retention.CurrentRule(mode, overrideDays),
                         old(rows), rows, old(deleted), deleted, examined)
      ensures fails == {} && allHeld ==> pass == EveryStatus && examined == |Matching(pass, old(rows))|
      ensures fails == {} && !stopped && |Matching(pass, old(rows))| <= Room(batchSize, maxIterations) ==>
                examined == |Matching(pass, old(rows))|
      ensures stopped ==>
                pressure.Some? && pressure.value.reading(taken + batches) <= pressure.value.target && !allHeld
      ensures |starts| == batches
      ensures pressure.Some? ==>
                StartedUnderPressure(pressure.value, taken, earlier, starts, earlier + tally.count, batchSize)
    {
      hide *;
      ghost var rule, before := retention.CurrentRule(mode, overrideDays), rows;
      tally, stopped, allHeld, batches, examined, starts := Tally(0, 0), false, false, 0, 0, [];
      var skip := 0;
      ghost var room := 0;
      NothingYet(rule, attempted, deleted, pressure, taken, earlier, batchSize);
      PassStarts(pass, rule, rows, deleted);
      RoomStep(batchSize, maxIterations);
      NoSweep(rows, deleted, attempted);
      while batches < maxIterations
        invariant batches <= maxIterations && |starts| == batches && room == Room(batchSize, batches)
        invariant !stopped && !allHeld && (batchSize == 0 ==> skip == 0)
        invariant OnlyAttempts(rule, old(attempted), attempted)
        invariant DistinctIds(rows) && Counted(old(deleted), deleted, tally)
        invariant Sweeping(old(rows), rows, old(deleted), deleted, old(attempted), attempted)
        invariant fails == {} ==> PassState(pass, rule, before, rows, old(deleted), deleted, examined, skip, room)
        invariant pressure.Some? ==>
                    StartedUnderPressure(pressure.value, taken, earlier, starts, earlier + tally.count, batchSize)
      {
        var end;
        end, skip, tally, examined, starts :=
          OnePage(pass, mode, overrideDays, pressure, fails, skip, tally, taken + batches,
                  before, old(attempted), old(deleted), examined, room, taken, earlier, starts);
        if end == NothingLeft {
          allHeld := pass == EveryStatus && skip > 0;
          break;
        }
        if end == Relieved {
          stopped := true;
          break;
        }
        RoomStep(batchSize, batches);
        batches, room := batches + 1, room + batchSize;
        if end == WholePageHeld {
          allHeld := pass == EveryStatus;
          break;
        }
      }
      if fails == {} {
        PassIsDone(pass, rule, before, rows, old(deleted), deleted, examined, skip, room);
      }
    }

    /** One round of the loop: fetch a page, stop if it is empty or pressure is relieved, else run it. */
    method OnePage(
      pass: Pass, mode: RetentionMode, overrideDays: Option<int>, pressure: Option<Pressure>, fails: set<RecordingId>,
      skip: nat, tally: Tally, readings: nat,
      ghost before: seq<Recording>, ghost tried: seq<Recording>, ghost first: seq<Recording>, ghost n: nat,
      ghost room: nat, ghost taken: nat, ghost earlier: nat, ghost starts: seq<nat>)
      returns (end: PageEnd, skip': nat, tally': Tally, ghost n': nat, ghost starts': seq<nat>)
      requires DistinctIds(rows) && Counted(first, deleted, tally) && (batchSize == 0 ==> skip == 0)
      requires OnlyAttempts(retention.CurrentRule(mode, overrideDays), tried, attempted)
      requires fails == {} ==>
                 PassState(pass, retention.CurrentRule(mode, overrideDays), before, rows, first, deleted, n, skip, room)
      requires Sweeping(before, rows, first, deleted, tried, attempted)
      requires readings == taken + |starts|
      requires pressure.Some? ==>
                 StartedUnderPressure(pressure.value, taken, earlier, starts, earlier + tally.count, batchSize)
      modifies this`rows, this`attempted, this`deleted
      ensures DistinctIds(rows) && Counted(first, deleted, tally') && (batchSize == 0 ==> skip' == 0)
      ensures OnlyAttempts(retention.CurrentRule(mode, overrideDays), tried, attempted)
      ensures Sweeping(before, rows, first, deleted, tried, attempted)
      ensures |starts'| == if end == Continue || end == WholePageHeld then |starts| + 1 else |starts|
      ensures fails == {} ==>
                PassState(pass, retention.CurrentRule(mode, overrideDays), before, rows, first, deleted,
                          n', skip', if end == Continue || end == WholePageHeld then room + batchSize else room)
      ensures pressure.Some? ==>
                StartedUnderPressure(pressure.value, taken, earlier, starts', earlier + tally'.count, batchSize)
      ensures end == Relieved ==>
                pressure.Some? && pressure.value.reading(readings) <= pressure.value.target
      ensures fails == {} && (end == WholePageHeld || (end == NothingLeft && batchSize > 0)) ==>
                n' == |Matching(pass, before)|
    {
      hide *;
      skip', tally', n', starts' := skip, tally, n, starts;
      var candidates := Page(pass, batchSize, skip);
      if fails == {} {
        PageIsNext(pass, retention.CurrentRule(mode, overrideDays), before, rows, first, deleted, n, skip, room,
                   candidates, batchSize);
      }
      if |candidates| == 0 {
        end := NothingLeft;
        return;
      }
      if pressure.Some? && pressure.value.reading(readings) <= pressure.value.target {
        end := Relieved;
        return;
      }
      skip', tally' :=
        RunPage(pass, mode, overrideDays, fails, candidates, skip, tally, before, tried, first, n, room);
      SweepChain(before, old(rows), rows, first, old(deleted), deleted, tried, old(attempted), attempted);
      if pressure.Some? {
        PressureStep(pressure.value, taken, earlier, starts, earlier + tally.count, earlier + tally'.count, batchSize);
      }
      starts' := starts + [earlier + tally.count];
      n' := n + if fails == {} then |candidates| else 0;
      end := if tally'.count == tally.count && |candidates| < batchSize then WholePageHeld else Continue;
    }

    /** The whole run: quarantined rows first under capacity pressure, then every status. Only what the policy allows
      * is ever handed to a delete, and a row changes only by its own delete: it is gone, or GARBAGE when that failed.
      * Every batch starts on a reading above the target, and a reading at the target ends the run. When nothing
      * fails, the claim that everything left is protected is true, each pass deletes exactly the allowed rows of the
      * prefix it examined, and, unless such a reading ended the run, of the whole list when the iteration cap has room
      * for it. */
    method DeleteOldestSegments(
      mode: RetentionMode, overrideDays: Option<int>, pressure: Option<Pressure>, fails: set<RecordingId>)
      returns (tally: Tally, allRemainingProtected: bool, batches: nat, ghost trace: RunTrace, ghost starts: seq<nat>)
      requires DistinctIds(rows)
      modifies this`rows, this`attempted, this`deleted
      ensures batches <= 2 * maxIterations
      ensures OnlyAttempts(retention.CurrentRule(mode, overrideDays), old(attempted), attempted)
      ensures Counted(old(deleted), deleted, tally) && old(attempted) <= attempted
      ensures OnlySwept(old(rows), rows, IdsOf(deleted[|old(deleted)|..]), IdsOf(attempted[|old(attempted)|..]))
      ensures |starts| == batches
      ensures pressure.Some? ==>
                && StartedUnderPressure(pressure.value, 0, 0, starts, tally.count, batchSize)
                && forall i :: 0 <= i < batches ==> pressure.value.reading(i) > pressure.value.target
      ensures trace.stopped ==> pressure.Some? && pressure.value.reading(batches) <= pressure.value.target
      ensures fails == {} && allRemainingProtected ==>
                forall r :: r in rows ==> !retention.CurrentRule(mode, overrideDays).Allows(r)
      ensures fails == {} ==>
                if mode == CAPACITY then
                  PassDone(QuarantinedOnly, retention.CurrentRule(mode, overrideDays),
                           old(rows), trace.middle, old(deleted), trace.halfway, trace.first)
                else trace.middle == old(rows) && trace.halfway == old(deleted)
      ensures fails == {} ==>
                PassDone(EveryStatus, retention.CurrentRule(mode, overrideDays),
                         trace.middle, rows, trace.halfway, deleted, trace.second)
      ensures fails == {} && !trace.stopped
              && |Matching(EveryStatus, trace.middle)| <= Room(batchSize, maxIterations) ==>
                trace.second == |Matching(EveryStatus, trace.middle)|
      ensures fails == {} && mode == CAPACITY && (!trace.stopped || deleted != trace.halfway)
              && |Matching(QuarantinedOnly, old(rows))| <= Room(batchSize, maxIterations) ==>
                trace.first == |Matching(QuarantinedOnly, old(rows))|
    {
      hide *;
      ghost var rule := retention.CurrentRule(mode, overrideDays);
      tally, allRemainingProtected, batches, starts := Tally(0, 0), false, 0, [];
      trace := RunTrace(rows, deleted, 0, 0, false);
      NothingYet(rule, attempted, deleted, pressure, 0, 0, batchSize);
      NoSweep(rows, deleted, attempted);
      if mode == CAPACITY {
        var stopped, held;
        ghost var examined;
        tally, stopped, held, batches, examined, starts :=
          RunPass(QuarantinedOnly, mode, overrideDays, pressure, fails, 0, 0);
        trace := RunTrace(rows, deleted, examined, 0, stopped);
        if fails == {} {
          EmptyPass(rule, rows, deleted);
        }
        if pressure.Some? {
          EachUnderPressure(pressure.value, 0, 0, starts, tally.count, batchSize);
        }
        if stopped {
          SweepingMeans(old(rows), rows, old(deleted), deleted, old(attempted), attempted);
          return;
        }
      }
      ghost var tried := attempted;
      var tally2, stopped2, held2, batches2;
      ghost var examined2, starts2;
      tally2, stopped2, held2, batches2, examined2, starts2 :=
        RunPass(EveryStatus, mode, overrideDays, pressure, fails, batches, tally.count);
      AttemptsChain(rule, old(attempted), tried, attempted);
      SweepChain(old(rows), trace.middle, rows, old(deleted), trace.halfway, deleted, old(attempted), tried, attempted);
      SweepingMeans(old(rows), rows, old(deleted), deleted, old(attempted), attempted);
      CountedChain(old(deleted), trace.halfway, deleted, tally, tally2);
      if pressure.Some? {
        PressureChain(pressure.value, starts, tally.count, starts2, tally.count + tally2.count, batchSize);
        EachUnderPressure(pressure.value, 0, 0, starts + starts2, tally.count + tally2.count, batchSize);
      }
      if fails == {} && held2 {
        HeldMeansHeld(rule, trace.middle, rows, trace.halfway, deleted, examined2);
      }
      tally := Tally(tally.count + tally2.count, tally.bytes + tally2.bytes);
      allRemainingProtected := held2;
      batches, starts := batches + batches2, starts + starts2;
      trace := trace.(second := examined2, stopped := stopped2);
    }
  }

  // ---------------------------------------------------------------------
  // Facts the loops use
  // ---------------------------------------------------------------------

  /** How many rows a number of batches can examine. */
  function Room(batchSize: nat, batches: nat): nat {
    batchSize * batches
  }

  lemma RoomStep(batchSize: nat, batches: nat)
    ensures Room(batchSize, 0) == 0
    ensures Room(batchSize, batches + 1) == Room(batchSize, batches) + batchSize
    ensures Room(0, batches) == 0
  {
  }

  /** Everything handed to the two-phase delete is something the rule allows. */
  ghost predicate OnlyAttempts(rule: Rule, before: seq<Recording>, attempted: seq<Recording>) {
    before <= attempted && forall i :: |before| <= i < |attempted| ==> rule.Allows(attempted[i])
  }

  /** A pass without failures deletes exactly the allowed rows of the prefix it examined, oldest first. */
  ghost predicate PassDone(
    pass: Pass, rule: Rule, before: seq<Recording>, rows: seq<Recording>,
    deletedBefore: seq<Recording>, deleted: seq<Recording>, n: nat)
  {
    var list := Matching(pass, before);
    && n <= |list|
    && DistinctIds(rows)
    && deleted == deletedBefore + Allowed(rule, list[..n])
    && Matching(pass, rows) == Kept(rule, list[..n]) + list[n..]
    && OnlyGone(before, rows, Allowed(rule, list[..n]))
  }

  lemma {:induction false} BytesConcat(a: seq<Recording>, b: seq<Recording>)
    ensures Bytes(a + b) == Bytes(a) + Bytes(b)
  {
    if b == [] {
      assert a + b == a;
    } else {
      assert (a + b)[..|a + b| - 1] == a + b[..|b| - 1];
      BytesConcat(a, b[..|b| - 1]);
    }
  }

  lemma AttemptsGrow(rule: Rule, before: seq<Recording>, tried: seq<Recording>, candidates: seq<Recording>)
    requires OnlyAttempts(rule, before, tried)
    ensures OnlyAttempts(rule, before, tried + Allowed(rule, candidates))
  {
    var more := Allowed(rule, candidates);
    forall i | 0 <= i < |more|
      ensures rule.Allows(more[i])
    {
      AllowedMembers(rule, candidates, more[i]);
    }
  }

  /** Where a pass without failures stands after `n` rows; it had `room` for that many. */
  ghost predicate PassState(
    pass: Pass, rule: Rule, before: seq<Recording>, rows: seq<Recording>,
    deletedBefore: seq<Recording>, deleted: seq<Recording>, n: nat, skip: nat, room: nat)
  {
    var list := Matching(pass, before);
    && n <= |list|
    && deleted == deletedBefore + Allowed(rule, list[..n])
    && Paging(pass, rule, list, n, before, rows, Allowed(rule, list[..n]), skip)
    && (n == |list| || room <= n)
  }

  lemma NothingYet(
    rule: Rule, attempted: seq<Recording>, deleted: seq<Recording>, pressure: Option<Pressure>, taken: nat,
    earlier: nat, batchSize: nat)
    ensures OnlyAttempts(rule, attempted, attempted)
    ensures Counted(deleted, deleted, Tally(0, 0))
    ensures pressure.Some? ==> StartedUnderPressure(pressure.value, taken, earlier, [], earlier, batchSize)
  {
  }

  lemma CountedStep(
    first: seq<Recording>, middle: seq<Recording>, deleted: seq<Recording>, tally: Tally, count: nat, bytes: nat)
    requires Counted(first, middle, tally) && middle <= deleted
    requires count == |deleted| - |middle| && bytes == Bytes(deleted[|middle|..])
    ensures Counted(first, deleted, Tally(tally.count + count, tally.bytes + bytes))
  {
    BytesConcat(middle[|first|..], deleted[|middle|..]);
    assert deleted[|first|..] == middle[|first|..] + deleted[|middle|..];
  }

  lemma CountedChain(
    first: seq<Recording>, middle: seq<Recording>, deleted: seq<Recording>, tally: Tally, tally': Tally)
    requires Counted(first, middle, tally) && Counted(middle, deleted, tally')
    ensures Counted(first, deleted, Tally(tally.count + tally'.count, tally.bytes + tally'.bytes))
  {
    CountedStep(first, middle, deleted, tally, tally'.count, tally'.bytes);
  }

  lemma AttemptsChain(rule: Rule, before: seq<Recording>, middle: seq<Recording>, after: seq<Recording>)
    requires OnlyAttempts(rule, before, middle) && OnlyAttempts(rule, middle, after)
    ensures OnlyAttempts(rule, before, after)
  {
    assert forall i :: 0 <= i < |middle| ==> after[i] == middle[i];
  }

  lemma {:induction false} PressureChain(
    p: Pressure, first: seq<nat>, middle: nat, second: seq<nat>, end: nat, batchSize: nat)
    requires StartedUnderPressure(p, 0, 0, first, middle, batchSize)
    requires StartedUnderPressure(p, |first|, middle, second, end, batchSize)
    ensures StartedUnderPressure(p, 0, 0, first + second, end, batchSize)
  {
    if second == [] {
      assert first + second == first;
    } else {
      var last := |second| - 1;
      PressureChain(p, first, middle, second[..last], second[last], batchSize);
      assert (first + second)[..|first| + last] == first + second[..last];
    }
  }

  lemma {:induction false} EachUnderPressure(
    p: Pressure, taken: nat, earlier: nat, starts: seq<nat>, end: nat, batchSize: nat)
    requires StartedUnderPressure(p, taken, earlier, starts, end, batchSize)
    ensures forall i :: taken <= i < taken + |starts| ==> p.reading(i) > p.target
  {
    if starts == [] {
    } else {
      EachUnderPressure(p, taken, earlier, starts[..|starts| - 1], starts[|starts| - 1], batchSize);
    }
  }

  lemma EmptyPass(rule: Rule, rows: seq<Recording>, deleted: seq<Recording>)
    requires DistinctIds(rows)
    ensures PassDone(EveryStatus, rule, rows, rows, deleted, deleted, 0)
  {
    PassStarts(EveryStatus, rule, rows, deleted);
  }

  lemma HeldMeansHeld(
    rule: Rule, before: seq<Recording>, rows: seq<Recording>, deletedBefore: seq<Recording>,
    deleted: seq<Recording>, n: nat)
    requires PassDone(EveryStatus, rule, before, rows, deletedBefore, deleted, n)
    requires n == |Matching(EveryStatus, before)|
    ensures forall r :: r in rows ==> !rule.Allows(r)
  {
    var list := Matching(EveryStatus, before);
    EveryRowMatches(rows);
    assert list[n..] == [] && rows == Kept(rule, list[..n]);
    forall r | r in rows
      ensures !rule.Allows(r)
    {
      KeptMembers(rule, list[..n], r);
    }
  }

  lemma PassStarts(pass: Pass, rule: Rule, rows: seq<Recording>, deleted: seq<Recording>)
    requires DistinctIds(rows)
    ensures PassState(pass, rule, rows, rows, deleted, deleted, 0, 0, 0)
  {
    DistinctMatching(pass, rows);
    assert Matching(pass, rows)[0..] == Matching(pass, rows);
    assert Allowed(rule, Matching(pass, rows)[..0]) == [] && deleted + [] == deleted;
  }

  /** `page` is the next page of the list after its first `n` rows. */
  ghost predicate IsPage(list: seq<Recording>, n: nat, page: seq<Recording>, limit: nat) {
    && |page| <= limit
    && n + |page| <= |list| && page == list[n..n + |page|]
    && (|page| < limit ==> n + |page| == |list|)
  }

  lemma PageMeans(list: seq<Recording>, n: nat, page: seq<Recording>, limit: nat)
    requires IsPage(list, n, page, limit)
    ensures |page| <= limit && n + |page| <= |list| && page == list[n..n + |page|]
    ensures |page| < limit ==> n + |page| == |list|
  {
  }

  lemma PassStateMeans(
    pass: Pass, rule: Rule, before: seq<Recording>, rows: seq<Recording>,
    deletedBefore: seq<Recording>, deleted: seq<Recording>, n: nat, skip: nat, room: nat)
    requires PassState(pass, rule, before, rows, deletedBefore, deleted, n, skip, room)
    ensures n <= |Matching(pass, before)| && (n == |Matching(pass, before)| || room <= n)
    ensures deleted == deletedBefore + Allowed(rule, Matching(pass, before)[..n])
    ensures var list := Matching(pass, before);
            Paging(pass, rule, list, n, before, rows, Allowed(rule, list[..n]), skip)
  {
  }

  lemma PageIsNext(
    pass: Pass, rule: Rule, before: seq<Recording>, rows: seq<Recording>,
    deletedBefore: seq<Recording>, deleted: seq<Recording>, n: nat, skip: nat, room: nat,
    page: seq<Recording>, limit: nat)
    requires PassState(pass, rule, before, rows, deletedBefore, deleted, n, skip, room)
    requires |page| <= limit
    requires skip <= |Matching(pass, rows)| ==> page <= Matching(pass, rows)[skip..]
    requires skip <= |Matching(pass, rows)| && |page| < limit ==> page == Matching(pass, rows)[skip..]
    ensures IsPage(Matching(pass, before), n, page, limit)
    ensures |page| < limit ==> n + |page| == |Matching(pass, before)|
  {
    assert Matching(pass, rows)[skip..] == Matching(pass, before)[n..];
  }

  lemma PassStep(
    pass: Pass, rule: Rule, before: seq<Recording>, rows: seq<Recording>,
    deletedBefore: seq<Recording>, removed: seq<Recording>, deleted: seq<Recording>, n: nat,
    page: seq<Recording>, skip: nat, room: nat, limit: nat)
    requires n + |page| <= |Matching(pass, before)| && page == Matching(pass, before)[n..n + |page|]
    requires |page| < limit ==> n + |page| == |Matching(pass, before)|
    requires |page| <= limit && (n == |Matching(pass, before)| || room <= n)
    requires removed == deletedBefore + Allowed(rule, Matching(pass, before)[..n])
    requires deleted == removed + Allowed(rule, page)
    requires Paging(pass, rule, Matching(pass, before), n + |page|, before, rows,
                    Allowed(rule, Matching(pass, before)[..n]) + Allowed(rule, page), skip)
    ensures PassState(pass, rule, before, rows, deletedBefore, deleted, n + |page|, skip, room + limit)
  {
    hide Matching, Allowed, Paging;
    var list := Matching(pass, before);
    AllowedPrefix(rule, list, n, n + |page|);
    assert list[..n + |page|] == list[..n] + page;
  }

  lemma PressureStep(
    p: Pressure, taken: nat, earlier: nat, starts: seq<nat>, count: nat, count': nat, batchSize: nat)
    requires count <= count' <= count + batchSize && p.reading(taken + |starts|) > p.target
    requires StartedUnderPressure(p, taken, earlier, starts, count, batchSize)
    ensures StartedUnderPressure(p, taken, earlier, starts + [count], count', batchSize)
  {
    assert (starts + [count])[..|starts|] == starts;
  }

  lemma PassIsDone(
    pass: Pass, rule: Rule, before: seq<Recording>, rows: seq<Recording>,
    deletedBefore: seq<Recording>, deleted: seq<Recording>, n: nat, skip: nat, room: nat)
    requires PassState(pass, rule, before, rows, deletedBefore, deleted, n, skip, room)
    ensures PassDone(pass, rule, before, rows, deletedBefore, deleted, n)
    ensures n == |Matching(pass, before)| || room <= n < |Matching(pass, before)|
  {
  }

  lemma {:induction false} AllowedPrefix(rule: Rule, list: seq<Recording>, n: nat, m: nat)
    requires n <= m <= |list|
    ensures Allowed(rule, list[..m]) == Allowed(rule, list[..n]) + Allowed(rule, list[n..m])
  {
    BatchingDoesNotMatter(rule, list[..n], list[n..m]);
    assert list[..m] == list[..n] + list[n..m];
  }

  lemma NothingOfPage(rule: Rule, candidates: seq<Recording>, deleted: seq<Recording>)
    ensures Allowed(rule, candidates[..0]) == [] && Deletions(deleted, deleted, 0, 0)
  {
  }

  function Bytes(segments: seq<Recording>): nat {
    if segments == [] then 0 else Bytes(segments[..|segments| - 1]) + segments[|segments| - 1].sizeBytes
  }

  // ---------------------------------------------------------------------
  // What a run means
  // ---------------------------------------------------------------------

  /** Disk usage over the moments of a run, and how many rows have gone by each of them. */
  datatype Course = Course(usage: nat -> int, gone: nat -> nat) {
    /** The batches of a run took their readings in this course, batch `i` at the moment `at[i]`. */
    ghost predicate ReadBy(p: Pressure, starts: seq<nat>, at: seq<nat>) {
      && |at| == |starts|
      && (forall i :: 0 <= i < |starts| ==> p.reading(i) == usage(at[i]) && gone(at[i]) == starts[i])
      && (forall m: nat, n: nat :: m <= n ==> gone(m) <= gone(n))
    }
  }

  /** Whatever else writes to the disk: from the moment the usage is down to the target for good, at most a batch of
    * rows goes. */
  lemma PressureReliefIsBounded(
    p: Pressure, starts: seq<nat>, count: nat, batchSize: nat, course: Course, at: seq<nat>, relieved: nat)
    requires StartedUnderPressure(p, 0, 0, starts, count, batchSize)
    requires course.ReadBy(p, starts, at)
    requires forall m: nat :: relieved <= m ==> course.usage(m) <= p.target
    ensures count <= course.gone(relieved) + batchSize
  {
    if starts == [] {
    } else {
      var last := |starts| - 1;
      assert p.reading(last) == course.usage(at[last]) && course.gone(at[last]) == starts[last];
      assert at[last] < relieved;
    }
  }

  /** No row is deleted in a pass while an older deletable row of the same pass survives. */
  lemma OldestFirst(
    pass: Pass, rule: Rule, before: seq<Recording>, rows: seq<Recording>,
    deletedBefore: seq<Recording>, deleted: seq<Recording>, n: nat, older: nat, younger: nat)
    requires PassDone(pass, rule, before, rows, deletedBefore, deleted, n)
    requires older < younger < |Matching(pass, before)|
    requires Matching(pass, before)[younger] !in rows && rule.Allows(Matching(pass, before)[older])
    ensures Matching(pass, before)[older] !in rows
  {
    var list := Matching(pass, before);
    if n <= younger {
      UnexaminedSurvives(pass, rule, before, rows, deletedBefore, deleted, n, younger);
      assert false;
    }
    assert list[..n][older] == list[older];
    AllowedMembers(rule, list[..n], list[older]);
  }

  lemma UnexaminedSurvives(
    pass: Pass, rule: Rule, before: seq<Recording>, rows: seq<Recording>,
    deletedBefore: seq<Recording>, deleted: seq<Recording>, n: nat, k: nat)
    requires PassDone(pass, rule, before, rows, deletedBefore, deleted, n)
    requires n <= k < |Matching(pass, before)|
    ensures Matching(pass, before)[k] in rows
  {
    var list := Matching(pass, before);
    assert list[n..][k - n] == list[k];
    assert list[k] in Matching(pass, rows);
    MatchingMembers(pass, rows, list[k]);
  }

  /** When the quarantined pass saw every quarantined row, no deletable one is left for the pass over good footage. */
  lemma QuarantinedGoFirst(
    rule: Rule, before: seq<Recording>, middle: seq<Recording>,
    deletedBefore: seq<Recording>, halfway: seq<Recording>, n: nat)
    requires PassDone(QuarantinedOnly, rule, before, middle, deletedBefore, halfway, n)
    requires n == |Matching(QuarantinedOnly, before)|
    ensures forall r :: r in middle && r.status == QUARANTINED ==> !rule.Allows(r)
    ensures forall r :: r in before && r.status != QUARANTINED ==> r in middle
  {
    var list := Matching(QuarantinedOnly, before);
    assert list[..n] == list && list[n..] == [];
    forall r | r in middle && r.status == QUARANTINED
      ensures !rule.Allows(r)
    {
      MatchingMembers(QuarantinedOnly, middle, r);
      KeptMembers(rule, list, r);
    }
    forall r | r in before && r.status != QUARANTINED
      ensures r in middle
    {
      AllowedMembers(rule, list, r);
      MatchingMembers(QuarantinedOnly, before, r);
    }
  }
}
