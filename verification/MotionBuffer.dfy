/** The Motion Buffer: which segments motion keeps and which expire
  * (src/recordings/segment-ingest.ts, onMotion, catalogueFile, isNearMotion, expireBufferedSegments).
  * Times and windows are in milliseconds. */
module MotionBuffer {
  import opened Options
  import opened RecordingTypes

  datatype MotionWindow = MotionWindow(pre: nat, post: nat, grace: nat)

  /** One motion event. `stored` is when the database took it (createdAt), absent if it could not; `handled` is when
    * the appliance's own subscriber read its clock, after that. */
  datatype Motion = Motion(cameraId: CameraId, stored: Option<int>, handled: int) {
    predicate Valid() {
      stored.Some? ==> stored.value <= handled
    }
  }

  /** setMotionWindow: both buffers are clamped. */
  function Clamp(low: int, value: int, high: int): int {
    if value < low then low else if value > high then high else value
  }

  /** isNearMotion's query: the interval [start - post, end + pre], ends included. */
  predicate InWindow(w: MotionWindow, start: int, end: int, at: int) {
    start - w.post <= at <= end + w.pre
  }

  /** onMotion's query: the segment overlaps [at - pre, at + post), strictly. */
  predicate Overlaps(w: MotionWindow, start: int, end: int, at: int) {
    start < at + w.post && end > at - w.pre
  }

  /** Cataloguing counts a motion by when it was stored. */
  predicate Near(w: MotionWindow, r: Recording, m: Motion) {
    r.cameraId == m.cameraId && m.stored.Some? && InWindow(w, r.startTime, r.endTime, m.stored.value)
  }

  /** Handling it counts it by the clock. */
  predicate Touches(w: MotionWindow, r: Recording, m: Motion) {
    r.cameraId == m.cameraId && Overlaps(w, r.startTime, r.endTime, m.handled)
  }

  predicate NearAny(w: MotionWindow, r: Recording, motions: set<Motion>) {
    exists m :: m in motions && Near(w, r, m)
  }

  /** The row a valid file gets, given the motion persisted so far. */
  function Judged(w: MotionWindow, r: Recording, mode: RecordingMode, motions: set<Motion>): Recording {
    var near := NearAny(w, r, motions);
    r.(status := if mode == MOTION_ONLY && !near then BUFFERED else AVAILABLE,
       tier := if near then EVENT else CONTINUOUS)
  }

  /** What one motion event does to one row. */
  function AfterMotion(w: MotionWindow, r: Recording, m: Motion): Recording {
    if !Touches(w, r, m) then r
    else if r.status == BUFFERED then r.(status := AVAILABLE, tier := EVENT)
    else if r.status == AVAILABLE && r.tier == CONTINUOUS then r.(tier := EVENT)
    else r
  }

  function AfterMotions(w: MotionWindow, r: Recording, motions: seq<Motion>): Recording {
    if motions == [] then r
    else AfterMotion(w, AfterMotions(w, r, motions[..|motions| - 1]), motions[|motions| - 1])
  }

  predicate Expirable(w: MotionWindow, r: Recording, now: int) {
    r.status == BUFFERED && r.endTime < now - (w.pre + w.grace)
  }

  // ---------------------------------------------------------------------
  // One segment: which motion counts
  // ---------------------------------------------------------------------

  /** The two queries disagree on a motion exactly when the two times lie on different sides of an end of the window:
    * stored in it and handled at its end or later (or at the very start, where only the first query counts it), or
    * stored before it and handled inside it. */
  lemma QueriesDisagreeIff(w: MotionWindow, r: Recording, m: Motion)
    requires r.startTime <= r.endTime && m.cameraId == r.cameraId && m.stored.Some? && m.Valid()
    ensures var first, last, stored := r.startTime - w.post, r.endTime + w.pre, m.stored.value;
            Near(w, r, m) != Touches(w, r, m) <==>
              || first <= stored <= last <= m.handled
              || stored < first < m.handled < last
              || first == stored == m.handled
  {
  }

  predicate TouchedByAny(w: MotionWindow, r: Recording, motions: seq<Motion>) {
    exists m :: m in motions && Touches(w, r, m)
  }

  lemma TouchedByOneMore(w: MotionWindow, r: Recording, motions: seq<Motion>, m: Motion)
    ensures TouchedByAny(w, r, motions + [m]) <==> TouchedByAny(w, r, motions) || Touches(w, r, m)
  {
    assert m in motions + [m] && forall n :: n in motions ==> n in motions + [m];
  }

  /** The fate of a segment catalogued when `before` was stored and reached by the motions `after` it, in any
    * order: kept with tier EVENT exactly when one of `before` is near it or one of `after` touches it. */
  lemma {:induction false} FateOfSegment(
    w: MotionWindow, r: Recording, mode: RecordingMode, before: set<Motion>, after: seq<Motion>)
    ensures var final := AfterMotions(w, Judged(w, r, mode, before), after);
            var counted := NearAny(w, r, before) || TouchedByAny(w, r, after);
            && final.(status := r.status, tier := r.tier) == r
            && (final.tier == if counted then EVENT else CONTINUOUS)
            && (final.status == if mode == MOTION_ONLY && !counted then BUFFERED else AVAILABLE)
  {
    hide NearAny, Overlaps;
    if after == [] {
    } else {
      var init, last := after[..|after| - 1], after[|after| - 1];
      FateOfSegment(w, r, mode, before, init);
      assert after == init + [last];
      TouchedByOneMore(w, r, init, last);
    }
  }

  function AsSet(motions: seq<Motion>): set<Motion> {
    set m | m in motions
  }

  lemma NearAnyOfBoth(w: MotionWindow, r: Recording, a: set<Motion>, b: set<Motion>)
    ensures NearAny(w, r, a + b) <==> NearAny(w, r, a) || NearAny(w, r, b)
  {
    hide Near;
    assert forall m :: m in a + b <==> m in a || m in b;
  }

  /** Nothing stored before cataloguing is near the segment, and of the motions after it the two queries do not agree
    * whether any counts. */
  predicate Divided(w: MotionWindow, r: Recording, before: set<Motion>, after: seq<Motion>) {
    !NearAny(w, r, before) && TouchedByAny(w, r, after) != NearAny(w, r, AsSet(after))
  }

  /** Cataloguing before the motions `after` gives the row that cataloguing after all of them gives, if and only if
    * they do not divide the queries. */
  lemma OrderIndependentIff(
    w: MotionWindow, r: Recording, mode: RecordingMode, before: set<Motion>, after: seq<Motion>)
    ensures AfterMotions(w, Judged(w, r, mode, before), after) == Judged(w, r, mode, before + AsSet(after))
            <==> !Divided(w, r, before, after)
  {
    hide NearAny, TouchedByAny;
    FateOfSegment(w, r, mode, before, after);
    NearAnyOfBoth(w, r, before, AsSet(after));
  }

  ghost predicate SameFate(w: MotionWindow, r: Recording, mode: RecordingMode, motions: set<Motion>) {
    forall before: set<Motion>, after: seq<Motion> :: before + AsSet(after) == motions ==>
      AfterMotions(w, Judged(w, r, mode, before), after) == Judged(w, r, mode, motions)
  }

  lemma {:induction false} Enumerated(motions: set<Motion>) returns (list: seq<Motion>)
    ensures AsSet(list) == motions
    decreases |motions|
  {
    if motions == {} {
      list := [];
    } else {
      var m :| m in motions;
      var rest := Enumerated(motions - {m});
      list := rest + [m];
      assert AsSet(list) == AsSet(rest) + {m};
    }
  }

  /** Over every order of cataloguing and the motions, a segment has one fate if and only if both queries count one
    * same motion or neither counts any. */
  lemma OneFateIff(w: MotionWindow, r: Recording, mode: RecordingMode, motions: set<Motion>)
    ensures SameFate(w, r, mode, motions) <==>
              || (exists m :: m in motions && Near(w, r, m) && Touches(w, r, m))
              || (forall m :: m in motions ==> !Near(w, r, m) && !Touches(w, r, m))
  {
    hide InWindow, Overlaps, Judged, AfterMotions, Near, Touches;
    if (exists m :: m in motions && Near(w, r, m) && Touches(w, r, m))
       || (forall m :: m in motions ==> !Near(w, r, m) && !Touches(w, r, m)) {
      forall before: set<Motion>, after: seq<Motion> | before + AsSet(after) == motions
        ensures AfterMotions(w, Judged(w, r, mode, before), after) == Judged(w, r, mode, motions)
      {
        CertainMotionsDoNotDivide(w, r, before, after);
        OrderIndependentIff(w, r, mode, before, after);
      }
    } else {
      var odd :| odd in motions && (Near(w, r, odd) || Touches(w, r, odd));
      SomeOrderDiffers(w, r, mode, motions, odd);
    }
  }

  lemma CertainMotionsDoNotDivide(w: MotionWindow, r: Recording, before: set<Motion>, after: seq<Motion>)
    requires var all := before + AsSet(after);
             || (exists m :: m in all && Near(w, r, m) && Touches(w, r, m))
             || (forall m :: m in all ==> !Near(w, r, m) && !Touches(w, r, m))
    ensures !Divided(w, r, before, after)
  {
    hide Near, Touches;
    var all := before + AsSet(after);
    if exists m :: m in all && Near(w, r, m) && Touches(w, r, m) {
      var m :| m in all && Near(w, r, m) && Touches(w, r, m);
      assert m in before || (m in after && m in AsSet(after));
    } else {
      assert forall m :: m in before || m in after ==> m in all;
    }
  }

  /** With no motion counted by both queries, each motion can come on the side where it counts, or on the other. */
  lemma SomeOrderDiffers(w: MotionWindow, r: Recording, mode: RecordingMode, motions: set<Motion>, odd: Motion)
    requires forall m :: m in motions ==> !(Near(w, r, m) && Touches(w, r, m))
    requires odd in motions && (Near(w, r, odd) || Touches(w, r, odd))
    ensures !SameFate(w, r, mode, motions)
  {
    hide InWindow, Overlaps, Near, Touches;
    var uncounted := set m | m in motions && !Near(w, r, m);
    var near := Enumerated(motions - uncounted);
    assert uncounted + AsSet(near) == motions;
    FateOfSegment(w, r, mode, uncounted, near);
    assert AfterMotions(w, Judged(w, r, mode, uncounted), near).tier == CONTINUOUS by {
      assert forall m :: m in near ==> m in AsSet(near);
    }
    if Near(w, r, odd) {
      assert Judged(w, r, mode, motions).tier == EVENT;
    } else {
      var others := Enumerated(motions);
      assert {} + AsSet(others) == motions;
      FateOfSegment(w, r, mode, {}, others);
      assert odd in AsSet(others);
      assert AfterMotions(w, Judged(w, r, mode, {}), others).tier == EVENT;
    }
  }

  /** For every segment there are motions whose fate depends on the order: stored just before the end of the window and
    * handled just after it, or stored just before its start and handled just after that. */
  lemma MotionAcrossAnEndDependsOnOrder(w: MotionWindow, r: Recording)
    requires r.startTime <= r.endTime && w.pre >= 1 && w.post >= 1
    ensures var m := Motion(r.cameraId, Some(r.endTime + w.pre - 1), r.endTime + w.pre + 1);
            && Judged(w, r, MOTION_ONLY, {m}).status == AVAILABLE
            && AfterMotions(w, Judged(w, r, MOTION_ONLY, {}), [m]).status == BUFFERED
    ensures var m := Motion(r.cameraId, Some(r.startTime - w.post - 1), r.startTime - w.post + 1);
            && Judged(w, r, MOTION_ONLY, {m}).status == BUFFERED
            && AfterMotions(w, Judged(w, r, MOTION_ONLY, {}), [m]).status == AVAILABLE
  {
    var late := Motion(r.cameraId, Some(r.endTime + w.pre - 1), r.endTime + w.pre + 1);
    var early := Motion(r.cameraId, Some(r.startTime - w.post - 1), r.startTime - w.post + 1);
    assert Near(w, r, late) && !Touches(w, r, late);
    assert !Near(w, r, early) && Touches(w, r, early);
    assert [late][..0] == [] && [early][..0] == [];
  }

  // ---------------------------------------------------------------------
  // Whole runs: cataloguing, motion, the clock, expiry and crashes
  // ---------------------------------------------------------------------

  /** A segment with the motions that were stored or handled when its motion query ran. */
  datatype Entry = Entry(r: Recording, known: set<Motion>)

  /** `judged` holds segments whose motion query has run but whose row is not written yet. */
  datatype Buffer = Buffer(
    clock: int,
    stored: set<Motion>,
    handled: set<Motion>,
    judged: map<RecordingId, Entry>,
    rows: map<RecordingId, Entry>,
    expired: set<Entry>)

  datatype BufferStep =
    | Tick(to: int)
    | Judge(r: Recording, mode: RecordingMode)
    | Write(id: RecordingId)
    | Store(m: Motion)                  // the event reaches the database
    | Handle(m: Motion)                 // onMotion
    | Expire(id: RecordingId)
    | Crash                             // segments without a row are forgotten, and judged again later

  /** A motion may be handled up to the grace period after its clock was read. */
  predicate BufferEnabled(w: MotionWindow, s: Buffer, step: BufferStep) {
    match step
    case Tick(to) => s.clock <= to
    case Judge(r, _) => r.id !in s.judged && r.id !in s.rows
    case Write(id) => id in s.judged
    case Store(m) => m.stored.Some?
    case Handle(m) => s.clock - w.grace <= m.handled && (m.stored.Some? ==> m in s.stored)
    case Expire(id) => id in s.rows && Expirable(w, s.rows[id].r, s.clock)
    case Crash => true
  }

  function BufferApply(w: MotionWindow, s: Buffer, step: BufferStep): Buffer
    requires BufferEnabled(w, s, step)
  {
    match step
    case Tick(to) => s.(clock := to)
    case Judge(r, mode) => s.(judged := s.judged[r.id := Entry(Judged(w, r, mode, s.stored), s.stored + s.handled)])
    case Write(id) => s.(judged := s.judged - {id}, rows := s.rows[id := s.judged[id]])
    case Store(m) => s.(stored := s.stored + {m})
    case Handle(m) =>
      s.(handled := s.handled + {m},
         rows := map id | id in s.rows :: s.rows[id].(r := AfterMotion(w, s.rows[id].r, m)))
    case Expire(id) => s.(rows := s.rows - {id}, expired := s.expired + {s.rows[id]})
    case Crash => s.(judged := map[])
  }

  /** A motion the segment's own query did not know must not be handled between that query and the writing of the
    * row. */
  predicate Undivided(w: MotionWindow, s: Buffer, step: BufferStep) {
    step.Handle? ==>
      forall id :: id in s.judged && s.judged[id].r.status == BUFFERED && step.m !in s.judged[id].known ==>
                     !Touches(w, s.judged[id].r, step.m)
  }

  /** The query that had to count the motion did not: cataloguing's if it was known then, else handling's. */
  predicate Missed(w: MotionWindow, e: Entry, m: Motion) {
    if m in e.known then !Near(w, e.r, m) else !Touches(w, e.r, m)
  }

  /** A segment is buffered only because no motion handled so far counts for it. */
  ghost predicate Uncounted(w: MotionWindow, s: Buffer, e: Entry) {
    e.r.status == BUFFERED ==>
      && (forall m :: m in s.handled ==> Missed(w, e, m))
      && (forall m :: m in e.known ==> !Near(w, e.r, m))
  }

  ghost predicate BufferedUntouched(w: MotionWindow, s: Buffer) {
    && (forall id :: id in s.rows ==> Uncounted(w, s, s.rows[id]))
    && (forall id :: id in s.judged ==> Uncounted(w, s, s.judged[id]))
  }

  /** No motion, handled before or after, counts for an expired segment; and none still can. */
  ghost predicate ExpiredUntouched(w: MotionWindow, s: Buffer) {
    forall e :: e in s.expired ==>
                  e.r.status == BUFFERED && e.r.endTime + w.pre + w.grace < s.clock && Uncounted(w, s, e)
  }

  lemma JudgedIsUncounted(w: MotionWindow, s: Buffer, r: Recording, mode: RecordingMode)
    requires forall m :: m in s.handled && m.stored.Some? ==> m in s.stored
    ensures Uncounted(w, s, Entry(Judged(w, r, mode, s.stored), s.stored + s.handled))
  {
    hide InWindow, Overlaps;
    var e := Entry(Judged(w, r, mode, s.stored), s.stored + s.handled);
    if e.r.status == BUFFERED {
      forall m | m in e.known
        ensures !Near(w, e.r, m)
      {
        assert Near(w, e.r, m) ==> Near(w, r, m) && m in s.stored;
      }
    }
  }

  lemma HandledStaysUncounted(w: MotionWindow, s: Buffer, e: Entry, m: Motion)
    requires Uncounted(w, s, e)
    ensures Uncounted(w, s.(handled := s.handled + {m}), e.(r := AfterMotion(w, e.r, m)))
    ensures (e.r.status == BUFFERED && m !in e.known ==> !Touches(w, e.r, m)) ==>
              Uncounted(w, s.(handled := s.handled + {m}), e)
  {
    hide InWindow, Overlaps;
  }

  ghost predicate BufferInv(w: MotionWindow, s: Buffer) {
    && BufferedUntouched(w, s) && ExpiredUntouched(w, s)
    && forall m :: m in s.handled && m.stored.Some? ==> m in s.stored
  }

  lemma BufferStepKeeps(w: MotionWindow, s: Buffer, step: BufferStep)
    requires BufferEnabled(w, s, step) && Undivided(w, s, step) && BufferInv(w, s)
    ensures BufferInv(w, BufferApply(w, s, step))
  {
    hide Judged, AfterMotion, Near;
    var s' := BufferApply(w, s, step);
    match step
    case Judge(r, mode) => JudgedIsUncounted(w, s, r, mode);
    case Handle(m) => HandleKeeps(w, s, m);
    case _ =>
  }

  lemma HandleKeeps(w: MotionWindow, s: Buffer, m: Motion)
    requires BufferEnabled(w, s, Handle(m)) && Undivided(w, s, Handle(m)) && BufferInv(w, s)
    ensures BufferInv(w, BufferApply(w, s, Handle(m)))
  {
    hide Uncounted, AfterMotion, Near;
    var s' := BufferApply(w, s, Handle(m));
    var more := s.(handled := s.handled + {m});
    forall e
      ensures Uncounted(w, more, e) <==> Uncounted(w, s', e)
    {
      OnlyHandledMatters(w, more, s', e);
    }
    forall id | id in s.rows
      ensures Uncounted(w, s', s'.rows[id])
    {
      HandledStaysUncounted(w, s, s.rows[id], m);
    }
    forall id | id in s.judged
      ensures Uncounted(w, s', s.judged[id])
    {
      HandledStaysUncounted(w, s, s.judged[id], m);
    }
    forall e | e in s.expired
      ensures Uncounted(w, s', e)
    {
      HandledStaysUncounted(w, s, e, m);
    }
  }

  lemma OnlyHandledMatters(w: MotionWindow, s: Buffer, s': Buffer, e: Entry)
    requires s.handled == s'.handled
    ensures Uncounted(w, s, e) <==> Uncounted(w, s', e)
  {
  }

  ghost predicate UndividedRun(w: MotionWindow, s: Buffer, steps: seq<BufferStep>)
    decreases |steps|
  {
    steps == [] || (&& BufferEnabled(w, s, steps[0]) && Undivided(w, s, steps[0])
                    && UndividedRun(w, BufferApply(w, s, steps[0]), steps[1..]))
  }

  function BufferAfter(w: MotionWindow, s: Buffer, steps: seq<BufferStep>): Buffer
    requires UndividedRun(w, s, steps)
    decreases |steps|
  {
    if steps == [] then s else BufferAfter(w, BufferApply(w, s, steps[0]), steps[1..])
  }

  lemma {:induction false} BufferRunsKeep(w: MotionWindow, s: Buffer, steps: seq<BufferStep>)
    requires UndividedRun(w, s, steps) && BufferInv(w, s)
    ensures BufferInv(w, BufferAfter(w, s, steps))
    decreases |steps|
  {
    hide BufferInv, BufferApply, BufferEnabled, Undivided;
    if steps == [] {
    } else {
      BufferStepKeeps(w, s, steps[0]);
      BufferRunsKeep(w, BufferApply(w, s, steps[0]), steps[1..]);
    }
  }

  /** Expiry is safe. Over any run from an empty buffer, crashes included, no motion ever handled, early or as late as
    * the grace period, was near an expired segment whose cataloguing knew of it or touched one whose cataloguing did
    * not; so none counts for an expired segment by both queries. */
  lemma ExpiryNeverLosesMotion(w: MotionWindow, clock: int, steps: seq<BufferStep>, e: Entry, m: Motion)
    requires UndividedRun(w, Buffer(clock, {}, {}, map[], map[], {}), steps)
    requires e in BufferAfter(w, Buffer(clock, {}, {}, map[], map[], {}), steps).expired
    requires m in BufferAfter(w, Buffer(clock, {}, {}, map[], map[], {}), steps).handled
    ensures Missed(w, e, m)
    ensures !(Near(w, e.r, m) && Touches(w, e.r, m))
  {
    hide BufferApply, BufferEnabled, Undivided, Near, Touches, UndividedRun, BufferAfter;
    var empty := Buffer(clock, {}, {}, map[], map[], {});
    assert BufferInv(w, empty);
    BufferRunsKeep(w, empty, steps);
  }

  lemma StepCons(w: MotionWindow, s: Buffer, step: BufferStep, rest: seq<BufferStep>)
    requires BufferEnabled(w, s, step) && Undivided(w, s, step) && UndividedRun(w, BufferApply(w, s, step), rest)
    ensures UndividedRun(w, s, [step] + rest)
    ensures BufferAfter(w, s, [step] + rest) == BufferAfter(w, BufferApply(w, s, step), rest)
  {
    hide BufferEnabled, Undivided, BufferApply;
    assert ([step] + rest)[1..] == rest;
  }

  /** The row of a segment that no motion is stored for. */
  function Quiet(r: Recording): Entry {
    Entry(r.(status := BUFFERED, tier := CONTINUOUS), {})
  }

  /** The buffer once that segment is catalogued. */
  function QuietlyBuffered(r: Recording, clock: int): Buffer {
    Buffer(clock, {}, {}, map[], map[r.id := Quiet(r)], {})
  }

  lemma CataloguedQuietly(w: MotionWindow, clock: int, r: Recording, later: int, rest: seq<BufferStep>)
    requires clock <= later && UndividedRun(w, QuietlyBuffered(r, later), rest)
    ensures var empty := Buffer(clock, {}, {}, map[], map[], {});
            var steps := [Judge(r, MOTION_ONLY)] + ([Write(r.id)] + ([Tick(later)] + rest));
            && UndividedRun(w, empty, steps)
            && BufferAfter(w, empty, steps) == BufferAfter(w, QuietlyBuffered(r, later), rest)
  {
    hide UndividedRun, BufferAfter;
    var empty := Buffer(clock, {}, {}, map[], map[], {});
    var none: set<Motion> := {};
    assert !NearAny(w, r, none) && none + none == none;
    var judged := empty.(judged := map[r.id := Quiet(r)]);
    assert BufferApply(w, empty, Judge(r, MOTION_ONLY)) == judged;
    assert BufferApply(w, judged, Write(r.id)) == QuietlyBuffered(r, clock);
    assert BufferApply(w, QuietlyBuffered(r, clock), Tick(later)) == QuietlyBuffered(r, later);
    StepCons(w, QuietlyBuffered(r, clock), Tick(later), rest);
    StepCons(w, judged, Write(r.id), [Tick(later)] + rest);
    StepCons(w, empty, Judge(r, MOTION_ONLY), [Write(r.id)] + ([Tick(later)] + rest));
  }

  lemma NothingLeft(w: MotionWindow, s: Buffer)
    ensures UndividedRun(w, s, []) && BufferAfter(w, s, []) == s
  {
  }

  /** Whatever the database has of motion when a segment's query runs counts, handled or not, and whatever else is
    * stored in between; and all motion stored or handled by then is known to the segment. */
  lemma StoredMotionCounts(
    w: MotionWindow, s: Buffer, m: Motion, other: Motion, r: Recording, mode: RecordingMode)
    requires m.stored.Some? && other.stored.Some? && BufferEnabled(w, s, Judge(r, mode)) && Near(w, r, m)
    ensures var both := BufferApply(w, BufferApply(w, s, Store(m)), Store(other));
            && BufferEnabled(w, both, Judge(r, mode))
            && var e := BufferApply(w, both, Judge(r, mode)).judged[r.id];
               && e.r == r.(status := AVAILABLE, tier := EVENT)
               && m in e.known && other in e.known && s.handled <= e.known && s.stored <= e.known
  {
    hide Near;
  }

  /** A crash loses the answers of all queries whose rows are not written: their segments are judged again. */
  lemma CrashForgets(w: MotionWindow, s: Buffer, r: Recording, mode: RecordingMode)
    requires r.id !in s.rows
    ensures BufferEnabled(w, s, Crash) && BufferEnabled(w, BufferApply(w, s, Crash), Judge(r, mode))
    ensures BufferApply(w, s, Crash).rows == s.rows && BufferApply(w, s, Crash).stored == s.stored
  {
  }

  /** Expiry does happen: a segment that nothing moves near is catalogued as BUFFERED, and expires once the clock is
    * past its end by the window and the grace period. */
  lemma QuietSegmentExpires(w: MotionWindow, clock: int, r: Recording, later: int)
    requires clock <= later && r.endTime + w.pre + w.grace < later
    ensures var empty := Buffer(clock, {}, {}, map[], map[], {});
            var steps := [Judge(r, MOTION_ONLY)] + ([Write(r.id)] + ([Tick(later)] + ([Expire(r.id)] + [])));
            && UndividedRun(w, empty, steps)
            && BufferAfter(w, empty, steps).expired == {Entry(r.(status := BUFFERED, tier := CONTINUOUS), {})}
  {
    hide UndividedRun, BufferAfter;
    var s := QuietlyBuffered(r, later);
    NothingLeft(w, BufferApply(w, s, Expire(r.id)));
    StepCons(w, s, Expire(r.id), []);
    CataloguedQuietly(w, clock, r, later, [Expire(r.id)] + []);
  }

  /** And a motion handled late, by up to the grace period, still finds its segment and keeps it, stored or not. */
  lemma LateMotionKeeps(w: MotionWindow, clock: int, r: Recording, later: int, m: Motion)
    requires clock <= later <= m.handled + w.grace && m.cameraId == r.cameraId
    requires r.startTime - w.post < m.handled < r.endTime + w.pre
    ensures var empty := Buffer(clock, {}, {}, map[], map[], {});
            var storing := if m.stored.Some? then [Store(m)] else [];
            var steps := [Judge(r, MOTION_ONLY)] + ([Write(r.id)] + ([Tick(later)] + (storing + ([Handle(m)] + []))));
            && UndividedRun(w, empty, steps)
            && BufferAfter(w, empty, steps).rows == map[r.id := Entry(r.(status := AVAILABLE, tier := EVENT), {})]
  {
    hide UndividedRun, BufferAfter;
    var s := QuietlyBuffered(r, later);
    var stored := if m.stored.Some? then BufferApply(w, s, Store(m)) else s;
    assert BufferApply(w, stored, Handle(m)).rows == map[r.id := Entry(AfterMotion(w, Quiet(r).r, m), {})];
    NothingLeft(w, BufferApply(w, stored, Handle(m)));
    StepCons(w, stored, Handle(m), []);
    if m.stored.Some? {
      StepCons(w, s, Store(m), [Handle(m)] + []);
      CataloguedQuietly(w, clock, r, later, [Store(m)] + ([Handle(m)] + []));
    } else {
      assert [] + ([Handle(m)] + []) == [Handle(m)] + [];
      CataloguedQuietly(w, clock, r, later, [Handle(m)] + []);
    }
  }

  /** A motion its query did not know, handled between a segment's query and its row, is lost: the row is written
    * BUFFERED all the same. */
  lemma DividedCataloguingLosesMotion(w: MotionWindow, s: Buffer, m: Motion)
    requires BufferEnabled(w, s, Handle(m)) && !Undivided(w, s, Handle(m))
    ensures exists id ::
              && id in s.judged && Touches(w, s.judged[id].r, m)
              && var s' := BufferApply(w, BufferApply(w, s, Handle(m)), Write(id));
                 s'.rows[id].r.status == BUFFERED && m in s'.handled
  {
    hide Touches, AfterMotion;
    var lost :| lost in s.judged && s.judged[lost].r.status == BUFFERED && Touches(w, s.judged[lost].r, m);
    var s' := BufferApply(w, BufferApply(w, s, Handle(m)), Write(lost));
    assert s'.rows[lost] == s.judged[lost];
  }
}
