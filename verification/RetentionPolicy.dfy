/** Who may be deleted (src/recordings/retention-policy.ts). Times are in milliseconds. */
module RetentionPolicy {
  import opened Options
  import opened RecordingTypes

  const DAY_MS := 24 * 60 * 60 * 1000

  datatype Bookmark = Bookmark(cameraId: CameraId, timestamp: int)
  datatype ExportRange = ExportRange(cameraId: CameraId, startTime: int, endTime: int)
  datatype HoldWindow = HoldWindow(cameraId: CameraId, start: int, end: int)
  datatype RetentionDays = RetentionDays(continuous: int, event: int, incident: int)
  datatype DaysUpdate = DaysUpdate(continuous: Option<int>, event: Option<int>, incident: Option<int>)
  datatype RetentionMode = AGE | CAPACITY

  /** Everything one decision depends on. */
  datatype Rule = Rule(
    mode: RetentionMode,
    overrideDays: Option<int>,
    days: RetentionDays,
    now: int,
    bookmarks: seq<Bookmark>,
    exports: seq<ExportRange>,
    bookmarkWindowMs: nat)
  {
    function LifetimeMs(tier: RetentionTier): int {
      overrideDays.Or(if tier == INCIDENT then days.incident else if tier == EVENT then days.event else days.continuous)
      * DAY_MS
    }

    predicate PastLifetime(s: Recording) {
      s.startTime < now - LifetimeMs(s.tier)
    }

    /** Footage near a bookmark or inside a queued or running export. */
    predicate Held(s: Recording) {
      || (exists b :: b in bookmarks && Overlaps(s, BookmarkWindow(b, bookmarkWindowMs)))
      || (exists e :: e in exports && Overlaps(s, ExportWindow(e)))
    }

    /** One segment's answer, with no reference to the batch it is asked in. */
    predicate Allows(s: Recording) {
      && s.status != BUFFERED && !LegalHold(s)
      && (mode == AGE ==> PastLifetime(s))
      && !Held(s)
    }
  }

  predicate LegalHold(s: Recording) {
    s.isProtected || s.tier == PROTECTED
  }

  function BookmarkWindow(b: Bookmark, windowMs: nat): HoldWindow {
    HoldWindow(b.cameraId, b.timestamp - windowMs, b.timestamp + windowMs)
  }

  function ExportWindow(e: ExportRange): HoldWindow {
    HoldWindow(e.cameraId, e.startTime, e.endTime)
  }

  predicate Overlaps(s: Recording, w: HoldWindow) {
    w.cameraId == s.cameraId && s.startTime < w.end && s.endTime > w.start
  }

  predicate OverlapsAny(s: Recording, windows: seq<HoldWindow>) {
    exists i :: 0 <= i < |windows| && Overlaps(s, windows[i])
  }

  /** The segments of a list that a rule allows, in order. */
  function Allowed(rule: Rule, segments: seq<Recording>): seq<Recording> {
    if segments == [] then []
    else
      var rest := Allowed(rule, segments[..|segments| - 1]);
      var last := segments[|segments| - 1];
      if rule.Allows(last) then rest + [last] else rest
  }

  // ---------------------------------------------------------------------
  // The bounded bookmark query
  // ---------------------------------------------------------------------

  /** The source's `bookmarks(from, to)`. */
  function BookmarksIn(bookmarks: seq<Bookmark>, from: int, to: int): seq<Bookmark> {
    if bookmarks == [] then []
    else
      var rest := BookmarksIn(bookmarks[..|bookmarks| - 1], from, to);
      var last := bookmarks[|bookmarks| - 1];
      if from <= last.timestamp <= to then rest + [last] else rest
  }

  lemma {:induction false} BookmarksInMembers(bookmarks: seq<Bookmark>, from: int, to: int, b: Bookmark)
    ensures b in BookmarksIn(bookmarks, from, to) <==> b in bookmarks && from <= b.timestamp <= to
  {
    if bookmarks == [] {
    } else {
      BookmarksInMembers(bookmarks[..|bookmarks| - 1], from, to, b);
      assert bookmarks == bookmarks[..|bookmarks| - 1] + [bookmarks[|bookmarks| - 1]];
    }
  }

  function Windows(bookmarks: seq<Bookmark>, exports: seq<ExportRange>, windowMs: nat): seq<HoldWindow> {
    seq(|bookmarks|, i requires 0 <= i < |bookmarks| => BookmarkWindow(bookmarks[i], windowMs))
    + seq(|exports|, i requires 0 <= i < |exports| => ExportWindow(exports[i]))
  }

  lemma WindowsHold(rule: Rule, s: Recording, fetched: seq<Bookmark>)
    ensures OverlapsAny(s, Windows(fetched, rule.exports, rule.bookmarkWindowMs))
            <==> rule.(bookmarks := fetched).Held(s)
  {
    var windows := Windows(fetched, rule.exports, rule.bookmarkWindowMs);
    if OverlapsAny(s, windows) {
      var i :| 0 <= i < |windows| && Overlaps(s, windows[i]);
      if i < |fetched| {
        assert fetched[i] in fetched;
      } else {
        assert rule.exports[i - |fetched|] in rule.exports;
      }
    }
    if exists b :: b in fetched && Overlaps(s, BookmarkWindow(b, rule.bookmarkWindowMs)) {
      var i :| 0 <= i < |fetched| && Overlaps(s, BookmarkWindow(fetched[i], rule.bookmarkWindowMs));
      assert Overlaps(s, windows[i]);
    }
    if exists e :: e in rule.exports && Overlaps(s, ExportWindow(e)) {
      var i :| 0 <= i < |rule.exports| && Overlaps(s, ExportWindow(rule.exports[i]));
      assert Overlaps(s, windows[|fetched| + i]);
    }
  }

  /** Bookmarks outside the span of a batch, widened by the bookmark window, hold nothing in the batch. */
  lemma BoundedQueryLosesNothing(rule: Rule, s: Recording, from: int, to: int)
    requires from <= s.startTime - rule.bookmarkWindowMs && s.endTime + rule.bookmarkWindowMs <= to
    ensures rule.(bookmarks := BookmarksIn(rule.bookmarks, from, to)).Held(s) <==> rule.Held(s)
  {
    var fetched := BookmarksIn(rule.bookmarks, from, to);
    if exists b :: b in rule.bookmarks && Overlaps(s, BookmarkWindow(b, rule.bookmarkWindowMs)) {
      var b :| b in rule.bookmarks && Overlaps(s, BookmarkWindow(b, rule.bookmarkWindowMs));
      BookmarksInMembers(rule.bookmarks, from, to, b);
    }
    if exists b :: b in fetched && Overlaps(s, BookmarkWindow(b, rule.bookmarkWindowMs)) {
      var b :| b in fetched && Overlaps(s, BookmarkWindow(b, rule.bookmarkWindowMs));
      BookmarksInMembers(rule.bookmarks, from, to, b);
    }
  }

  // ---------------------------------------------------------------------
  // The policy
  // ---------------------------------------------------------------------

  class RetentionPolicy {
    var days: RetentionDays
    /** What the hold source and the clock would answer now. */
    var bookmarks: seq<Bookmark>
    var exports: seq<ExportRange>
    var clock: int
    const bookmarkWindowMs: nat

    constructor (bookmarkWindowMs: nat, clock: int)
      ensures days == RetentionDays(7, 15, 60) && bookmarks == [] && exports == []
      ensures this.bookmarkWindowMs == bookmarkWindowMs && this.clock == clock
    {
      this.bookmarkWindowMs, this.clock := bookmarkWindowMs, clock;
      days, bookmarks, exports := RetentionDays(7, 15, 60), [], [];
    }

    /** Changes the given settings, to nothing below zero: whatever they were, no footage of the future expires now. */
    method SetDays(update: DaysUpdate)
      modifies this`days
      ensures days == UpdatedDays(old(days), update)
      ensures forall rule: Rule, s: Recording ::
                rule.days == GetDays() && rule.overrideDays.None? && rule.PastLifetime(s) ==> s.startTime < rule.now
    {
      var next := RetentionDays(
        update.continuous.Or(days.continuous), update.event.Or(days.event), update.incident.Or(days.incident));
      days := RetentionDays(Max(0, next.continuous), Max(0, next.event), Max(0, next.incident));
    }

    function GetDays(): RetentionDays
      reads this
    {
      EffectiveDays(days)
    }

    function CurrentRule(mode: RetentionMode, overrideDays: Option<int>): Rule
      reads this
    {
      Rule(mode, overrideDays, GetDays(), clock, bookmarks, exports, bookmarkWindowMs)
    }

    /** The batched answer, computed with bookmarks fetched only for the batch's time span, is the pointwise answer: the
      * candidates that are neither buffered nor protected, by age are past their tier's raised lifetime or the
      * override, and overlap no window around a bookmark and no export of their camera. */
    method Deletable(candidates: seq<Recording>, mode: RetentionMode, overrideDays: Option<int>)
      returns (deletable: seq<Recording>)
      ensures deletable == Allowed(CurrentRule(mode, overrideDays), candidates)
      ensures forall s :: s in deletable <==>
                s in candidates && MayGo(s, mode, overrideDays, days, clock, bookmarks, exports, bookmarkWindowMs)
    {
      var rule := CurrentRule(mode, overrideDays);
      forall s | s in Allowed(rule, candidates) || s in candidates {
        AllowedMeans(rule, days, candidates, s);
      }
      hide Rule.Allows, MayGo;
      var due := Due(rule, candidates);
      if |due| == 0 {
        AllowedOfDue(rule, candidates, due);
        return [];
      }
      var first, last := due[0].startTime, due[0].endTime;
      for i := 0 to |due|
        invariant forall j :: 0 <= j < i ==> first <= due[j].startTime && due[j].endTime <= last
      {
        if due[i].startTime < first {
          first := due[i].startTime;
        }
        if due[i].endTime > last {
          last := due[i].endTime;
        }
      }
      var from, to := first - bookmarkWindowMs, last + bookmarkWindowMs;
      var fetched := BookmarksIn(bookmarks, from, to);
      var windows := Windows(fetched, exports, bookmarkWindowMs);
      deletable := [];
      for i := 0 to |due|
        invariant deletable == Unheld(rule, due[..i])
      {
        assert due[..i + 1][..i] == due[..i];
        WindowsHold(rule, due[i], fetched);
        BoundedQueryLosesNothing(rule, due[i], from, to);
        if !OverlapsAny(due[i], windows) {
          deletable := deletable + [due[i]];
        }
      }
      assert due[..|due|] == due;
      AllowedOfDue(rule, candidates, due);
    }
  }

  /** What the policy lets go: nothing buffered or protected; by age, only what is older than the lifetime given, or
    * than that of its tier, which is at least as long as those of the tiers before it; and nothing that overlaps the
    * window around a bookmark of its camera, or an export of it. */
  ghost predicate MayGo(
    s: Recording, mode: RetentionMode, overrideDays: Option<int>, days: RetentionDays, now: int,
    bookmarks: seq<Bookmark>, exports: seq<ExportRange>, windowMs: nat)
  {
    && s.status != BUFFERED && !s.isProtected && s.tier != PROTECTED
    && (mode == AGE ==>
          var configured := if s.tier == INCIDENT then Max(days.incident, Max(days.event, days.continuous))
                            else if s.tier == EVENT then Max(days.event, days.continuous)
                            else days.continuous;
          var lifetime := if overrideDays.Some? then overrideDays.value else configured;
          s.startTime < now - 86_400_000 * lifetime)
    && (forall b :: b in bookmarks && b.cameraId == s.cameraId ==>
          s.startTime >= b.timestamp + windowMs || s.endTime <= b.timestamp - windowMs)
    && (forall e :: e in exports && e.cameraId == s.cameraId ==> s.startTime >= e.endTime || s.endTime <= e.startTime)
  }

  /** What the answer says of one segment, field by field. */
  lemma AllowedMeans(rule: Rule, days: RetentionDays, candidates: seq<Recording>, s: Recording)
    requires rule.days == EffectiveDays(days)
    ensures s in Allowed(rule, candidates) <==>
              s in candidates
              && MayGo(s, rule.mode, rule.overrideDays, days, rule.now, rule.bookmarks, rule.exports,
                       rule.bookmarkWindowMs)
  {
    AllowedMembers(rule, candidates, s);
    assert forall b :: Overlaps(s, BookmarkWindow(b, rule.bookmarkWindowMs)) <==>
                         b.cameraId == s.cameraId && s.startTime < b.timestamp + rule.bookmarkWindowMs
                         && s.endTime > b.timestamp - rule.bookmarkWindowMs;
    assert forall e :: Overlaps(s, ExportWindow(e)) <==>
                         e.cameraId == s.cameraId && s.startTime < e.endTime && s.endTime > e.startTime;
  }

  function UpdatedDays(days: RetentionDays, update: DaysUpdate): RetentionDays {
    RetentionDays(
      Max(0, update.continuous.Or(days.continuous)),
      Max(0, update.event.Or(days.event)),
      Max(0, update.incident.Or(days.incident)))
  }

  function EffectiveDays(days: RetentionDays): RetentionDays {
    var event := Max(days.event, days.continuous);
    RetentionDays(days.continuous, event, Max(days.incident, event))
  }

  /** Candidates that are neither buffered nor on legal hold and, in age mode, past their lifetime. */
  function Due(rule: Rule, segments: seq<Recording>): seq<Recording> {
    if segments == [] then []
    else
      var rest := Due(rule, segments[..|segments| - 1]);
      var last := segments[|segments| - 1];
      if last.status != BUFFERED && !LegalHold(last) && (rule.mode == AGE ==> rule.PastLifetime(last))
      then rest + [last] else rest
  }

  function Unheld(rule: Rule, segments: seq<Recording>): seq<Recording> {
    if segments == [] then []
    else
      var rest := Unheld(rule, segments[..|segments| - 1]);
      var last := segments[|segments| - 1];
      if !rule.Held(last) then rest + [last] else rest
  }

  lemma UnheldSnoc(rule: Rule, segments: seq<Recording>, last: Recording)
    ensures Unheld(rule, segments + [last]) == Unheld(rule, segments) + (if rule.Held(last) then [] else [last])
  {
    hide Rule.Held;
    assert (segments + [last])[..|segments|] == segments;
  }

  lemma {:induction false} AllowedOfDue(rule: Rule, candidates: seq<Recording>, due: seq<Recording>)
    requires due == Due(rule, candidates)
    ensures Unheld(rule, due) == Allowed(rule, candidates)
  {
    if candidates == [] {
    } else {
      var init, last := candidates[..|candidates| - 1], candidates[|candidates| - 1];
      var rest := Due(rule, init);
      AllowedOfDue(rule, init, rest);
      UnheldSnoc(rule, rest, last);
      hide Unheld, Rule.Held, Rule.PastLifetime;
    }
  }

  // ---------------------------------------------------------------------
  // What the policy guarantees
  // ---------------------------------------------------------------------

  /** The answer does not depend on how candidates are batched. */
  lemma {:induction false} BatchingDoesNotMatter(rule: Rule, first: seq<Recording>, second: seq<Recording>)
    ensures Allowed(rule, first + second) == Allowed(rule, first) + Allowed(rule, second)
  {
    if second == [] {
      assert first + second == first;
    } else {
      var init := second[..|second| - 1];
      BatchingDoesNotMatter(rule, first, init);
      assert (first + second)[..|first + second| - 1] == first + init;
    }
  }

  lemma {:induction false} AllowedMembers(rule: Rule, segments: seq<Recording>, s: Recording)
    ensures s in Allowed(rule, segments) <==> s in segments && rule.Allows(s)
  {
    if segments == [] {
    } else {
      AllowedMembers(rule, segments[..|segments| - 1], s);
      assert segments == segments[..|segments| - 1] + [segments[|segments| - 1]];
    }
  }

  function Expired(rule: Rule, segments: seq<Recording>): seq<Recording> {
    if segments == [] then []
    else
      var rest := Expired(rule, segments[..|segments| - 1]);
      var last := segments[|segments| - 1];
      if rule.PastLifetime(last) then rest + [last] else rest
  }

  /** The age answer is the capacity answer restricted to segments past their lifetime. */
  lemma {:induction false} AgeIsCapacityPastLifetime(rule: Rule, segments: seq<Recording>)
    ensures Allowed(rule.(mode := AGE), segments) == Expired(rule, Allowed(rule.(mode := CAPACITY), segments))
  {
    if segments == [] {
    } else {
      var init, last := segments[..|segments| - 1], segments[|segments| - 1];
      AgeIsCapacityPastLifetime(rule, init);
      var capacity := Allowed(rule.(mode := CAPACITY), segments);
      assert rule.(mode := CAPACITY).Held(last) <==> rule.Held(last);
      assert rule.(mode := AGE).Held(last) <==> rule.Held(last);
      if rule.(mode := CAPACITY).Allows(last) {
        assert capacity[..|capacity| - 1] == Allowed(rule.(mode := CAPACITY), init);
      }
    }
  }

  /** Whatever the settings are, a longer-lived tier never expires sooner. */
  lemma LongerTierNeverExpiresSooner(rule: Rule, days: RetentionDays, s: Recording)
    requires rule.days == EffectiveDays(days)
    ensures rule.PastLifetime(s.(tier := INCIDENT)) ==> rule.PastLifetime(s.(tier := EVENT))
    ensures rule.PastLifetime(s.(tier := EVENT)) ==> rule.PastLifetime(s.(tier := CONTINUOUS))
  {
    assert rule.days.continuous <= rule.days.event <= rule.days.incident;
  }
}
