/** Timeline spans (src/recordings/recording-catalog.ts, getTimelineSpans): stitching segments
  * into continuous stretches. Times are in milliseconds. */
module Timeline {
  import opened RecordingTypes

  const SPAN_GAP_TOLERANCE_MS := 5_000

  datatype Segment = Segment(id: RecordingId, start: int, end: int)

  datatype Span = Span(recordingId: RecordingId, start: int, end: int, durationSeconds: int)

  /** Math.round(ms / 1000): halves go up. */
  function RoundSeconds(ms: int): int {
    (ms + 500) / 1000
  }

  lemma RoundSecondsMeans(ms: int)
    ensures 1000 * RoundSeconds(ms) - 500 <= ms < 1000 * RoundSeconds(ms) + 500
  {
  }

  predicate NearestSecond(span: Span) {
    1000 * span.durationSeconds - 500 <= span.end - span.start < 1000 * span.durationSeconds + 500
  }

  function OpenSpan(r: Segment): Span {
    Span(r.id, r.start, r.end, RoundSeconds(r.end - r.start))
  }

  function Extend(span: Span, end: int): Span {
    var last := Max(span.end, end);
    span.(end := last, durationSeconds := RoundSeconds(last - span.start))
  }

  predicate Joins(span: Span, r: Segment) {
    r.start - span.end <= SPAN_GAP_TOLERANCE_MS
  }

  function Stitch(records: seq<Segment>): seq<Span> {
    if records == [] then [] else AddSegment(Stitch(records[..|records| - 1]), records[|records| - 1])
  }

  /** A segment extends the last span when it joins it, and opens a new one otherwise. */
  function AddSegment(spans: seq<Span>, r: Segment): seq<Span> {
    if spans != [] && Joins(spans[|spans| - 1], r)
    then spans[..|spans| - 1] + [Extend(spans[|spans| - 1], r.end)]
    else spans + [OpenSpan(r)]
  }

  lemma {:induction false} StitchedToTheSecond(records: seq<Segment>)
    ensures forall k :: 0 <= k < |Stitch(records)| ==> NearestSecond(Stitch(records)[k])
  {
    if records == [] {
    } else {
      var init, r := records[..|records| - 1], records[|records| - 1];
      StitchedToTheSecond(init);
      var spans := Stitch(init);
      if spans != [] {
        var last := spans[|spans| - 1];
        RoundSecondsMeans(Max(last.end, r.end) - last.start);
      }
      RoundSecondsMeans(r.end - r.start);
      hide RoundSeconds, Stitch;
    }
  }

  function TotalSeconds(spans: seq<Span>): int {
    if spans == [] then 0 else TotalSeconds(spans[..|spans| - 1]) + spans[|spans| - 1].durationSeconds
  }

  method GetTimelineSpans(records: seq<Segment>) returns (spans: seq<Span>, totalDurationSeconds: int)
    ensures spans == Stitch(records)
    ensures totalDurationSeconds == TotalSeconds(Stitch(records))
    ensures forall k :: 0 <= k < |spans| ==>
                          var ms, seconds := spans[k].end - spans[k].start, spans[k].durationSeconds;
                          1000 * seconds - 500 <= ms < 1000 * seconds + 500
  {
    spans := [];
    for i := 0 to |records|
      invariant spans == Stitch(records[..i])
    {
      hide RoundSeconds;
      assert records[..i + 1][..i] == records[..i];
      var r := records[i];
      ghost var before := spans;
      if |spans| > 0 && r.start - spans[|spans| - 1].end <= SPAN_GAP_TOLERANCE_MS {
        var last := spans[|spans| - 1];
        var lastEnd := if last.end < r.end then r.end else last.end;
        spans := spans[|spans| - 1 := last.(end := lastEnd, durationSeconds := RoundSeconds(lastEnd - last.start))];
      } else {
        spans := spans + [Span(r.id, r.start, r.end, RoundSeconds(r.end - r.start))];
      }
      assert spans == AddSegment(before, r);
    }
    assert records[..|records|] == records;
    StitchedToTheSecond(records);
    totalDurationSeconds := SumDurations(spans);
  }

  method SumDurations(spans: seq<Span>) returns (total: int)
    ensures total == TotalSeconds(spans)
  {
    total := 0;
    for i := 0 to |spans|
      invariant total == TotalSeconds(spans[..i])
    {
      assert spans[..i + 1][..i] == spans[..i];
      total := total + spans[i].durationSeconds;
    }
    assert spans[..|spans|] == spans;
  }

  // ---------------------------------------------------------------------
  // What the spans are
  // ---------------------------------------------------------------------

  /** What the catalog hands over: sorted by start, no segment ending before it starts. */
  ghost predicate Sorted(records: seq<Segment>) {
    && (forall i, j :: 0 <= i < j < |records| ==> records[i].start <= records[j].start)
    && (forall i :: 0 <= i < |records| ==> records[i].start <= records[i].end)
  }

  /** The latest end of a run of segments. */
  function Reach(group: seq<Segment>): int
    requires group != []
  {
    if |group| == 1 then group[0].end
    else Max(Reach(group[..|group| - 1]), group[|group| - 1].end)
  }

  /** No hole of more than the tolerance: each segment starts in time after what came before it. */
  predicate Chained(group: seq<Segment>) {
    && group != []
    && (|group| > 1 ==>
          && Chained(group[..|group| - 1])
          && group[|group| - 1].start - Reach(group[..|group| - 1]) <= SPAN_GAP_TOLERANCE_MS)
  }

  /** The segments of each span. */
  function Groups(records: seq<Segment>): (groups: seq<seq<Segment>>)
    ensures forall i :: 0 <= i < |groups| ==> groups[i] != []
  {
    if records == [] then []
    else AddTo(Groups(records[..|records| - 1]), records[|records| - 1])
  }

  /** A record joins the last group when it starts in time, and opens a new one otherwise. */
  function AddTo(groups: seq<seq<Segment>>, r: Segment): (added: seq<seq<Segment>>)
    requires forall i :: 0 <= i < |groups| ==> groups[i] != []
    ensures forall i :: 0 <= i < |added| ==> added[i] != []
  {
    if groups != [] && r.start - Reach(groups[|groups| - 1]) <= SPAN_GAP_TOLERANCE_MS
    then groups[..|groups| - 1] + [groups[|groups| - 1] + [r]]
    else groups + [[r]]
  }

  function SpanOf(group: seq<Segment>): Span
    requires group != []
  {
    Span(group[0].id, group[0].start, Reach(group), RoundSeconds(Reach(group) - group[0].start))
  }

  lemma OneMore(group: seq<Segment>, r: Segment)
    requires group != []
    ensures Reach(group + [r]) == Max(Reach(group), r.end)
    ensures SpanOf(group + [r]) == Extend(SpanOf(group), r.end)
    ensures Chained(group + [r]) <==> Chained(group) && r.start - Reach(group) <= SPAN_GAP_TOLERANCE_MS
  {
    assert (group + [r])[..|group|] == group;
  }

  ghost predicate SpansOf(spans: seq<Span>, groups: seq<seq<Segment>>) {
    |spans| == |groups| && forall i :: 0 <= i < |groups| ==> groups[i] != [] && spans[i] == SpanOf(groups[i])
  }

  lemma AddMakesGroups(spans: seq<Span>, groups: seq<seq<Segment>>, r: Segment)
    requires SpansOf(spans, groups) && forall i :: 0 <= i < |groups| ==> Chained(groups[i])
    ensures SpansOf(AddSegment(spans, r), AddTo(groups, r))
    ensures forall i :: 0 <= i < |AddTo(groups, r)| ==> Chained(AddTo(groups, r)[i])
  {
    hide Chained, Reach, RoundSeconds;
    Single(r);
    if groups != [] {
      OneMore(groups[|groups| - 1], r);
    }
  }

  lemma Single(r: Segment)
    ensures Chained([r]) && SpanOf([r]) == OpenSpan(r)
  {
  }

  /** The loop's spans are the spans of the groups, and every group is hole-free. */
  lemma {:induction false} StitchMakesGroups(records: seq<Segment>)
    ensures SpansOf(Stitch(records), Groups(records))
    ensures forall i :: 0 <= i < |Groups(records)| ==> Chained(Groups(records)[i])
  {
    hide Chained, SpansOf, AddSegment, AddTo;
    if records != [] {
      var init, r := records[..|records| - 1], records[|records| - 1];
      StitchMakesGroups(init);
      AddMakesGroups(Stitch(init), Groups(init), r);
    } else {
      NoSpans();
    }
  }

  lemma NoSpans()
    ensures SpansOf([], [])
  {
  }

  function Flatten(groups: seq<seq<Segment>>): seq<Segment> {
    if groups == [] then [] else Flatten(groups[..|groups| - 1]) + groups[|groups| - 1]
  }

  /** Consecutive groups are more than the tolerance apart. */
  ghost predicate Apart(groups: seq<seq<Segment>>) {
    && (forall i :: 0 <= i < |groups| ==> groups[i] != [])
    && (forall i :: 0 < i < |groups| ==> groups[i][0].start - Reach(groups[i - 1]) > SPAN_GAP_TOLERANCE_MS)
  }

  lemma AddToKeeps(groups: seq<seq<Segment>>, r: Segment)
    requires Apart(groups)
    ensures Apart(AddTo(groups, r)) && Flatten(AddTo(groups, r)) == Flatten(groups) + [r]
  {
    hide Reach;
    var added := AddTo(groups, r);
    if |added| == |groups| {
      assert added[..|added| - 1] == groups[..|groups| - 1];
    } else {
      assert added[..|added| - 1] == groups;
    }
  }

  lemma {:induction false} GroupsPartition(records: seq<Segment>)
    ensures Flatten(Groups(records)) == records && Apart(Groups(records))
  {
    if records == [] {
    } else {
      hide Flatten, Apart, AddTo;
      var init, last := records[..|records| - 1], records[|records| - 1];
      GroupsPartition(init);
      AddToKeeps(Groups(init), last);
      assert records == init + [last];
    }
  }

  /** The records without the last, cut the same way. */
  lemma Shorten(groups: seq<seq<Segment>>) returns (shorter: seq<seq<Segment>>, r: Segment)
    requires groups != [] && Apart(groups) && forall i :: 0 <= i < |groups| ==> Chained(groups[i])
    ensures Apart(shorter) && forall i :: 0 <= i < |shorter| ==> Chained(shorter[i])
    ensures Flatten(groups) == Flatten(shorter) + [r] && AddTo(shorter, r) == groups
  {
    hide Reach;
    var front, last := groups[..|groups| - 1], groups[|groups| - 1];
    assert front + [last] == groups;
    r := last[|last| - 1];
    if |last| == 1 {
      shorter := front;
      assert last == [r];
    } else {
      var rest := last[..|last| - 1];
      shorter := front + [rest];
      assert rest + [r] == last;
      assert Chained(rest);
      OneMore(rest, r);
    }
    AddToKeeps(shorter, r);
  }

  /** There is only one way to cut the records into hole-free groups that lie apart. */
  lemma {:induction false} GroupsAreUnique(records: seq<Segment>, groups: seq<seq<Segment>>)
    requires Flatten(groups) == records && Apart(groups)
    requires forall i :: 0 <= i < |groups| ==> Chained(groups[i])
    ensures groups == Groups(records)
    decreases |records|
  {
    if groups == [] {
    } else {
      var shorter, r := Shorten(groups);
      assert records[..|records| - 1] == Flatten(shorter);
      GroupsAreUnique(records[..|records| - 1], shorter);
    }
  }

  lemma {:induction false} ReachBounds(group: seq<Segment>)
    requires group != []
    ensures forall j :: 0 <= j < |group| ==> group[j].end <= Reach(group)
    ensures EndsSomewhere(group, Reach(group))
  {
    if |group| > 1 {
      var init := group[..|group| - 1];
      ReachBounds(init);
      assert forall j :: 0 <= j < |init| ==> init[j] == group[j];
      if Reach(init) == Reach(group) {
        var j :| 0 <= j < |init| && init[j].end == Reach(init);
        assert group[j].end == Reach(group);
      } else {
        assert group[|group| - 1].end == Reach(group);
      }
    }
  }

  predicate EndsSomewhere(group: seq<Segment>, at: int) {
    exists j :: 0 <= j < |group| && group[j].end == at
  }

  predicate Covered(group: seq<Segment>, t: int) {
    exists i :: 0 <= i < |group| && group[i].start <= t <= group[i].end
  }

  /** `t` lies in a hole of the group no longer than the tolerance. */
  predicate InShortHole(group: seq<Segment>, t: int) {
    exists i :: 0 < i < |group| && Reach(group[..i]) < t < group[i].start
                && group[i].start - Reach(group[..i]) <= 5_000
  }

  lemma CoveredByMore(group: seq<Segment>, r: Segment, t: int)
    requires Covered(group, t) || InShortHole(group, t)
    ensures Covered(group + [r], t) || InShortHole(group + [r], t)
  {
    var more := group + [r];
    if Covered(group, t) {
      var i :| 0 <= i < |group| && group[i].start <= t <= group[i].end;
      assert more[i] == group[i];
    } else {
      var i :| 0 < i < |group| && Reach(group[..i]) < t < group[i].start
               && group[i].start - Reach(group[..i]) <= 5_000;
      assert more[..i] == group[..i] && more[i] == group[i];
    }
  }

  /** Every instant of a hole-free group is covered by a segment or lies in a short hole. */
  lemma {:induction false} NoLongHole(group: seq<Segment>, t: int)
    requires Chained(group) && group[0].start <= t <= Reach(group)
    ensures Covered(group, t) || InShortHole(group, t)
  {
    var last := |group| - 1;
    if last > 0 {
      var init, r := group[..last], group[last];
      assert init + [r] == group;
      if t <= Reach(init) {
        NoLongHole(init, t);
        CoveredByMore(init, r, t);
      } else if t < r.start {
        assert Reach(group[..last]) < t < group[last].start;
      } else {
        assert group[last].start <= t <= group[last].end;
      }
    } else {
      assert group[0].start <= t <= group[0].end;
    }
  }

  /** Spans lie in time order, more than the tolerance apart. */
  lemma SpansLieApart(records: seq<Segment>)
    ensures forall i :: 0 < i < |Stitch(records)| ==>
                          Stitch(records)[i].start - Stitch(records)[i - 1].end > 5_000
    ensures SpansOf(Stitch(records), Groups(records))
  {
    StitchMakesGroups(records);
    GroupsPartition(records);
  }

  function AsSegments(spans: seq<Span>): seq<Segment> {
    seq(|spans|, i requires 0 <= i < |spans| => Segment(spans[i].recordingId, spans[i].start, spans[i].end))
  }

  lemma {:induction false} ApartSegmentsStay(segments: seq<Segment>)
    requires forall i :: 0 < i < |segments| ==> segments[i].start - segments[i - 1].end > SPAN_GAP_TOLERANCE_MS
    ensures |Stitch(segments)| == |segments|
    ensures forall i :: 0 <= i < |segments| ==> Stitch(segments)[i] == OpenSpan(segments[i])
  {
    if segments == [] {
    } else {
      var init := segments[..|segments| - 1];
      assert forall i :: 0 <= i < |init| ==> init[i] == segments[i];
      ApartSegmentsStay(init);
    }
  }

  /** Stitching the spans again changes nothing. */
  lemma StitchingIsIdempotent(records: seq<Segment>)
    ensures Stitch(AsSegments(Stitch(records))) == Stitch(records)
  {
    var spans := Stitch(records);
    SpansLieApart(records);
    StitchMakesGroups(records);
    ApartSegmentsStay(AsSegments(spans));
    hide Stitch, Groups;
    SpansReopen(spans, Groups(records));
    var again := Stitch(AsSegments(spans));
    assert forall i :: 0 <= i < |spans| ==> again[i] == spans[i];
  }

  /** A span taken as a segment opens the same span. */
  lemma SpansReopen(spans: seq<Span>, groups: seq<seq<Segment>>)
    requires SpansOf(spans, groups)
    ensures forall i :: 0 <= i < |spans| ==> OpenSpan(AsSegments(spans)[i]) == spans[i]
  {
  }

  /** Canonical spans: the records are cut, in order, into groups, one per span; each span runs from the start of its
    * first record to the latest end in its group, which is a record's end; and a span has no hole of more than the
    * tolerance. No other cut into hole-free groups that lie apart exists (GroupsAreUnique). */
  lemma SpansAreCanonical(records: seq<Segment>, k: nat, t: int)
    requires Sorted(records) && k < |Stitch(records)|
    ensures Flatten(Groups(records)) == records && Apart(Groups(records)) && |Groups(records)| == |Stitch(records)|
    ensures var group, span := Groups(records)[k], Stitch(records)[k];
            && group != [] && span == SpanOf(group)
            && EndsSomewhere(group, span.end)
            && (forall j :: 0 <= j < |group| ==> span.start <= group[j].start && group[j].end <= span.end)
            && (span.start <= t <= span.end ==> Covered(group, t) || InShortHole(group, t))
  {
    StitchMakesGroups(records);
    GroupsPartition(records);
    var group := Groups(records)[k];
    GroupIsSorted(records, Groups(records), k);
    ReachBounds(group);
    if group[0].start <= t <= Reach(group) {
      NoLongHole(group, t);
    }
  }

  lemma {:induction false} GroupIsSorted(records: seq<Segment>, groups: seq<seq<Segment>>, k: nat)
    requires Sorted(records) && Flatten(groups) == records && k < |groups|
    ensures Sorted(groups[k])
    decreases |groups|
  {
    var front, last := groups[..|groups| - 1], groups[|groups| - 1];
    var head := Flatten(front);
    SortedParts(head, last);
    if k < |front| {
      GroupIsSorted(head, front, k);
    }
  }

  lemma SortedParts(a: seq<Segment>, b: seq<Segment>)
    requires Sorted(a + b)
    ensures Sorted(a) && Sorted(b)
  {
    var all := a + b;
    assert forall i :: 0 <= i < |a| ==> all[i] == a[i];
    assert forall i :: 0 <= i < |b| ==> all[|a| + i] == b[i];
  }
}
