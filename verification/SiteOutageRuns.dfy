/** A site whose link drops: one site alert, in time, and no camera alert besides it. */
module SiteOutageRuns {
  import opened Options
  import opened CameraStatus
  import opened SiteOutage
  import opened AlertPolicy
  import opened CameraHealth
  import opened HealthRuns

  /** In this poll every network-checked camera of the site fails its probe, and `members` is the set of them. */
  ghost predicate Dark(cycle: Cycle, siteOf: CameraId -> Option<SiteId>, siteId: SiteId, members: set<CameraId>) {
    && cycle.Valid() && SitesAre(cycle, siteOf)
    && (forall c :: c in members ==>
          && c in ActiveIds(cycle.cameras) && c !in cycle.removed && siteOf(c) == Some(siteId)
          && c in cycle.checks && cycle.checks[c].sample.networkCheck == FAILED)
    && (forall c :: c in ActiveIds(cycle.cameras) && c !in cycle.removed && c !in members
                    && siteOf(c) == Some(siteId) ==>
          c in cycle.checks && cycle.checks[c].sample.networkCheck == NOT_APPLICABLE)
  }

  ghost predicate AllDark(
    outage: seq<Cycle>, siteOf: CameraId -> Option<SiteId>, siteId: SiteId, members: set<CameraId>)
  {
    outage == []
    || (AllDark(outage[..|outage| - 1], siteOf, siteId, members)
        && Dark(outage[|outage| - 1], siteOf, siteId, members))
  }

  lemma {:induction false} AllDarkAt(
    outage: seq<Cycle>, siteOf: CameraId -> Option<SiteId>, siteId: SiteId, members: set<CameraId>, k: nat)
    requires AllDark(outage, siteOf, siteId, members) && k < |outage|
    ensures Dark(outage[k], siteOf, siteId, members) && AllDark(outage[..k + 1], siteOf, siteId, members)
  {
    if k < |outage| - 1 {
      AllDarkAt(outage[..|outage| - 1], siteOf, siteId, members, k);
      assert outage[..|outage| - 1][..k + 1] == outage[..k + 1];
    } else {
      assert outage[..k + 1] == outage;
    }
  }

  function Outage(s: HealthState, outage: seq<Cycle>): HealthState {
    if outage == [] then s else NextHealth(Outage(s, outage[..|outage| - 1]), outage[|outage| - 1])
  }

  /** What is announced about the site during the outage. */
  function OutageLog(s: HealthState, outage: seq<Cycle>, siteId: SiteId): seq<SiteTransition> {
    if outage == [] then []
    else
      var init := outage[..|outage| - 1];
      OutageLog(s, init, siteId) + About(CycleAnnouncements(Outage(s, init), outage[|outage| - 1]), siteId)
  }

  // ---------------------------------------------------------------------
  // The detector sees exactly the members
  // ---------------------------------------------------------------------

  function SampleOf(camera: Camera, state: CameraState): SiteSample {
    SiteSample(camera.id, camera.siteId, state.memory.status,
               state.networkCheck != NOT_APPLICABLE, state.networkCheck == FAILED)
  }

  lemma {:induction false} SamplesComplete(cameras: seq<Camera>, cams: map<CameraId, CameraState>, i: nat)
    requires i < |cameras| && cameras[i].id in cams
    ensures SampleOf(cameras[i], cams[cameras[i].id]) in Samples(cameras, cams)
  {
    if i < |cameras| - 1 {
      assert cameras[..|cameras| - 1][i] == cameras[i];
      SamplesComplete(cameras[..|cameras| - 1], cams, i);
    }
  }

  lemma {:induction false} SamplesSound(cameras: seq<Camera>, cams: map<CameraId, CameraState>, x: SiteSample)
    requires x in Samples(cameras, cams)
    ensures exists i :: 0 <= i < |cameras| && cameras[i].id in cams && x == SampleOf(cameras[i], cams[cameras[i].id])
  {
    var init := cameras[..|cameras| - 1];
    if x in Samples(init, cams) {
      SamplesSound(init, cams, x);
      var i :| 0 <= i < |init| && init[i].id in cams && x == SampleOf(init[i], cams[init[i].id]);
      assert cameras[i] == init[i];
    } else {
      var i := |cameras| - 1;
      assert x == SampleOf(cameras[i], cams[cameras[i].id]);
    }
  }

  lemma {:induction false} GroupMembers(samples: seq<SiteSample>, siteId: SiteId, x: SiteSample)
    ensures x in Group(samples, siteId) <==> x in samples && Counts(x) && x.siteId.value == siteId
  {
    if samples == [] {
    } else {
      GroupMembers(samples[..|samples| - 1], siteId, x);
      assert samples == samples[..|samples| - 1] + [samples[|samples| - 1]];
    }
  }

  /** A member's sample is in its site's group. */
  lemma MemberSampled(
    s: HealthState, cycle: Cycle, siteOf: CameraId -> Option<SiteId>, siteId: SiteId, members: set<CameraId>,
    c: CameraId)
    requires Dark(cycle, siteOf, siteId, members) && RealSite(Some(siteId)) && c in members
    ensures var cams := CamsAfter(s, cycle);
            && c in cams && cams[c].networkCheck == FAILED
            && SampleOf(Camera(c, Some(siteId)), cams[c]) in Group(Samples(cycle.cameras, cams), siteId)
  {
    var cams := CamsAfter(s, cycle);
    var i :| 0 <= i < |cycle.cameras| && cycle.cameras[i].id == c;
    SamplesComplete(cycle.cameras, cams, i);
    GroupMembers(Samples(cycle.cameras, cams), siteId, SampleOf(cycle.cameras[i], cams[c]));
  }

  /** Every sample of the site's group is a member's. */
  lemma SampleIsMember(
    s: HealthState, cycle: Cycle, siteOf: CameraId -> Option<SiteId>, siteId: SiteId, members: set<CameraId>,
    x: SiteSample)
    requires Dark(cycle, siteOf, siteId, members)
    requires x in Group(Samples(cycle.cameras, CamsAfter(s, cycle)), siteId)
    ensures x.cameraId in members && x.unreachable
    ensures x.status == CamsAfter(s, cycle)[x.cameraId].memory.status
  {
    var cams := CamsAfter(s, cycle);
    GroupMembers(Samples(cycle.cameras, cams), siteId, x);
    SamplesSound(cycle.cameras, cams, x);
    var i :| 0 <= i < |cycle.cameras| && cycle.cameras[i].id in cams
             && x == SampleOf(cycle.cameras[i], cams[cycle.cameras[i].id]);
    assert cycle.cameras[i].siteId == siteOf(cycle.cameras[i].id);
  }

  lemma TwoDistinct(x: SiteSample, y: SiteSample, group: seq<SiteSample>)
    requires x in group && y in group && x.cameraId != y.cameraId
    ensures |group| >= 2
  {
  }

  lemma TwoMembers(members: set<CameraId>) returns (a: CameraId, b: CameraId)
    requires |members| >= 2
    ensures a in members && b in members && a != b
  {
    a :| a in members;
    assert |members - {a}| >= 1;
    b :| b in members - {a};
  }

  lemma DarkGroup(
    s: HealthState, cycle: Cycle, siteOf: CameraId -> Option<SiteId>, siteId: SiteId, members: set<CameraId>)
    requires Dark(cycle, siteOf, siteId, members) && RealSite(Some(siteId)) && |members| >= 2
    ensures var cams := CamsAfter(s, cycle);
            var group := Group(Samples(cycle.cameras, cams), siteId);
            && AllUnreachable(group)
            && ((forall c :: c in members ==> c in cams && cams[c].memory.status == OFFLINE) ==> AllOffline(group))
  {
    var cams := CamsAfter(s, cycle);
    var group := Group(Samples(cycle.cameras, cams), siteId);
    var a, b := TwoMembers(members);
    MemberSampled(s, cycle, siteOf, siteId, members, a);
    MemberSampled(s, cycle, siteOf, siteId, members, b);
    TwoDistinct(SampleOf(Camera(a, Some(siteId)), cams[a]), SampleOf(Camera(b, Some(siteId)), cams[b]), group);
    forall i | 0 <= i < |group|
      ensures group[i].unreachable && group[i].cameraId in members
      ensures group[i].status == cams[group[i].cameraId].memory.status
    {
      SampleIsMember(s, cycle, siteOf, siteId, members, group[i]);
    }
  }

  // ---------------------------------------------------------------------
  // The outage, poll by poll
  // ---------------------------------------------------------------------

  /** After `polls` failed probes in a row, the first of them at `first`. */
  ghost predicate FailingSince(s: HealthState, c: CameraId, polls: nat, first: int) {
    && c in s.cams
    && s.cams[c].memory.consecutiveFailures >= polls
    && s.cams[c].memory.offlineSince.Some? && s.cams[c].memory.offlineSince.value <= first
  }

  /** Every member's probe in poll `k` came at least the offline delay after its probe in the first poll. */
  ghost predicate Late(outage: seq<Cycle>, members: set<CameraId>, k: nat) {
    && k < |outage|
    && forall c :: c in members && c in outage[0].checks && c in outage[k].checks ==>
                     outage[k].checks[c].at - outage[0].checks[c].at >= OFFLINE_AFTER_MS
  }

  ghost predicate ClockMovesForward(s: HealthState, first: Cycle, members: set<CameraId>) {
    forall c :: c in members && c in first.checks && s.Before(c).memory.offlineSince.Some? ==>
                  s.Before(c).memory.offlineSince.value <= first.checks[c].at
  }

  lemma MemberKeepsFailing(s: HealthState, cycle: Cycle, c: CameraId, polls: nat, first: int)
    requires c in ActiveIds(cycle.cameras) && c !in cycle.removed
    requires c in cycle.checks && cycle.checks[c].sample.networkCheck == FAILED
    requires polls > 0 ==> FailingSince(s, c, polls, first)
    requires polls == 0 ==> first == cycle.checks[c].at && (s.Before(c).memory.offlineSince.Some? ==>
                                                              s.Before(c).memory.offlineSince.value <= first)
    ensures FailingSince(NextHealth(s, cycle), c, polls + 1, first)
    ensures polls > 0 && cycle.checks[c].at - first >= OFFLINE_AFTER_MS ==>
              NextHealth(s, cycle).cams[c].memory.status == OFFLINE
  {
    assert NextHealth(s, cycle).cams[c] == AfterCheck(s.Before(c), Some(cycle.checks[c]));
  }

  lemma {:induction false} MembersKeepFailing(
    s: HealthState, outage: seq<Cycle>, siteOf: CameraId -> Option<SiteId>, siteId: SiteId,
    members: set<CameraId>, c: CameraId)
    requires |outage| > 0 && AllDark(outage, siteOf, siteId, members)
    requires ClockMovesForward(s, outage[0], members) && c in members
    ensures c in outage[0].checks && FailingSince(Outage(s, outage), c, |outage|, outage[0].checks[c].at)
    ensures |outage| >= 2 && Late(outage, members, |outage| - 1) ==> Outage(s, outage).cams[c].memory.status == OFFLINE
  {
    var init, last := outage[..|outage| - 1], outage[|outage| - 1];
    if init == [] {
    } else {
      MembersKeepFailing(s, init, siteOf, siteId, members, c);
    }
    MemberKeepsFailing(Outage(s, init), last, c, |init|, outage[0].checks[c].at);
  }

  ghost predicate OneOutageAlert(log: seq<SiteTransition>) {
    |log| == 1 && log[0].SiteOffline?
  }

  /** One dark poll moves the link away from UP and announces the outage at most once. */
  lemma DarkPoll(
    s: HealthState, cycle: Cycle, siteOf: CameraId -> Option<SiteId>, siteId: SiteId, members: set<CameraId>)
    requires Dark(cycle, siteOf, siteId, members) && RealSite(Some(siteId)) && |members| >= 2
    ensures var before, after := LinkOf(s.links.states, siteId), LinkOf(NextHealth(s, cycle).links.states, siteId);
            var log := About(CycleAnnouncements(s, cycle), siteId);
            && after != UP
            && (before == DOWN ==> after == DOWN && log == [])
            && (before != DOWN && after == DOWN ==> OneOutageAlert(log))
            && (after == SUSPECTED ==> log == [])
    ensures (forall c :: c in members ==> c in CamsAfter(s, cycle) && CamsAfter(s, cycle)[c].memory.status == OFFLINE)
            ==> LinkOf(NextHealth(s, cycle).links.states, siteId) == DOWN
  {
    DarkGroup(s, cycle, siteOf, siteId, members);
    CycleAnnouncesSite(s, cycle, siteId);
    SiteOrderMember(Samples(cycle.cameras, CamsAfter(s, cycle)), siteId);
  }

  /** During a dark poll every failure event of any camera of the site carries the site's tag. */
  lemma DarkPollTags(
    s: HealthState, cycle: Cycle, siteOf: CameraId -> Option<SiteId>, siteId: SiteId, members: set<CameraId>,
    c: CameraId)
    requires Dark(cycle, siteOf, siteId, members) && RealSite(Some(siteId)) && |members| >= 2
    requires LedgerSound(s, siteOf) && siteOf(c) == Some(siteId)
    ensures forall i :: 0 <= i < |CycleEvents(s, cycle, c)| ==> CoveredBy(CycleEvents(s, cycle, c)[i], siteId)
  {
    DarkPoll(s, cycle, siteOf, siteId, members);
    SiteOfListed(cycle.cameras, c, siteOf);
    hide CamsAfter, Samples, CycleAnnouncements, LinksAfter, PendingAfter, Dark;
    EventsWhileNotUp(s, cycle, c, siteId);
  }

  /** With the site's link not up, what a cycle emits about a camera of the site is tagged when it is a failure. */
  lemma EventsWhileNotUp(s: HealthState, cycle: Cycle, c: CameraId, siteId: SiteId)
    requires RealSite(Some(siteId)) && LinkOf(LinksAfter(s, cycle).states, siteId) != UP
    requires SiteOf(cycle.cameras, c) == Some(siteId) || c !in ActiveIds(cycle.cameras)
    requires c in s.suppressed ==> s.suppressed[c] == siteId
    ensures forall i :: 0 <= i < |CycleEvents(s, cycle, c)| ==> CoveredBy(CycleEvents(s, cycle, c)[i], siteId)
  {
    hide Samples, LinksAfter, CamsAfter;
  }

  /** A camera recovery, or a failure the site alert stands for. */
  ghost predicate CoveredBy(event: Event, siteId: SiteId) {
    && event.CameraEvent?
    && (event.status in {OFFLINE, DEGRADED} ==> event.siteOutage == Some(siteId) && AlertFor(event).None?)
  }

  ghost predicate PollCovered(s: HealthState, cycle: Cycle, siteOf: CameraId -> Option<SiteId>, siteId: SiteId) {
    forall c :: siteOf(c) == Some(siteId) ==>
                  forall i :: 0 <= i < |CycleEvents(s, cycle, c)| ==> CoveredBy(CycleEvents(s, cycle, c)[i], siteId)
  }

  /** In every poll of the outage, every event of every camera of the site is covered by the site alert. */
  ghost predicate AllCovered(s: HealthState, outage: seq<Cycle>, siteOf: CameraId -> Option<SiteId>, siteId: SiteId) {
    outage == []
    || (&& AllCovered(s, outage[..|outage| - 1], siteOf, siteId)
        && PollCovered(Outage(s, outage[..|outage| - 1]), outage[|outage| - 1], siteOf, siteId))
  }

  lemma {:induction false} OutageIsCovered(
    s: HealthState, outage: seq<Cycle>, siteOf: CameraId -> Option<SiteId>, siteId: SiteId, members: set<CameraId>)
    requires LedgerSound(s, siteOf) && RealSite(Some(siteId))
    requires |members| >= 2 && AllDark(outage, siteOf, siteId, members)
    ensures LedgerSound(Outage(s, outage), siteOf)
    ensures AllCovered(s, outage, siteOf, siteId)
  {
    if outage == [] {
    } else {
      var init, last := outage[..|outage| - 1], outage[|outage| - 1];
      OutageIsCovered(s, init, siteOf, siteId, members);
      LedgerStep(Outage(s, init), Polled(last), siteOf);
      forall c | siteOf(c) == Some(siteId)
        ensures forall i :: 0 <= i < |CycleEvents(Outage(s, init), last, c)| ==>
                              CoveredBy(CycleEvents(Outage(s, init), last, c)[i], siteId)
      {
        DarkPollTags(Outage(s, init), last, siteOf, siteId, members, c);
      }
    }
  }

  /** The site is announced down once, when its link goes DOWN, and by any poll 30 s after the first. */
  lemma {:induction false} OutageIsAnnouncedOnce(
    s: HealthState, outage: seq<Cycle>, siteOf: CameraId -> Option<SiteId>, siteId: SiteId, members: set<CameraId>)
    requires RealSite(Some(siteId)) && LinkOf(s.links.states, siteId) != DOWN
    requires |members| >= 2 && AllDark(outage, siteOf, siteId, members)
    requires outage != [] ==> ClockMovesForward(s, outage[0], members)
    ensures LinkOf(Outage(s, outage).links.states, siteId) == DOWN ==> OneOutageAlert(OutageLog(s, outage, siteId))
    ensures LinkOf(Outage(s, outage).links.states, siteId) != DOWN ==> OutageLog(s, outage, siteId) == []
    ensures |outage| >= 2 && Late(outage, members, |outage| - 1) ==>
              LinkOf(Outage(s, outage).links.states, siteId) == DOWN
  {
    if outage == [] {
    } else {
      var init, last := outage[..|outage| - 1], outage[|outage| - 1];
      OutageIsAnnouncedOnce(s, init, siteOf, siteId, members);
      DarkPoll(Outage(s, init), last, siteOf, siteId, members);
      if |outage| >= 2 && Late(outage, members, |outage| - 1) {
        LateMembersAreOffline(s, outage, siteOf, siteId, members);
      }
    }
  }

  lemma LateMembersAreOffline(
    s: HealthState, outage: seq<Cycle>, siteOf: CameraId -> Option<SiteId>, siteId: SiteId, members: set<CameraId>)
    requires |outage| >= 2 && AllDark(outage, siteOf, siteId, members)
    requires ClockMovesForward(s, outage[0], members) && Late(outage, members, |outage| - 1)
    ensures var cams := CamsAfter(Outage(s, outage[..|outage| - 1]), outage[|outage| - 1]);
            forall c :: c in members ==> c in cams && cams[c].memory.status == OFFLINE
  {
    forall c | c in members
      ensures c in Outage(s, outage).cams && Outage(s, outage).cams[c].memory.status == OFFLINE
    {
      MembersKeepFailing(s, outage, siteOf, siteId, members, c);
    }
  }

  lemma LatePrefix(outage: seq<Cycle>, members: set<CameraId>, k: nat)
    requires k < |outage| && Late(outage, members, k)
    ensures Late(outage[..k + 1], members, k)
  {
    assert outage[..k + 1][0] == outage[0] && outage[..k + 1][k] == outage[k];
  }

  /** By the first poll 30 s or more after the first failed one, the outage has been announced. */
  lemma OutageIsAnnouncedInTime(
    s: HealthState, outage: seq<Cycle>, siteOf: CameraId -> Option<SiteId>, siteId: SiteId, members: set<CameraId>,
    k: nat)
    requires RealSite(Some(siteId)) && LinkOf(s.links.states, siteId) != DOWN
    requires |members| >= 2 && AllDark(outage, siteOf, siteId, members)
    requires 1 <= k < |outage| && ClockMovesForward(s, outage[0], members) && Late(outage, members, k)
    ensures OneOutageAlert(OutageLog(s, outage[..k + 1], siteId))
  {
    hide AllDark, Late, ClockMovesForward, OutageLog, Outage, OneOutageAlert;
    AllDarkAt(outage, siteOf, siteId, members, k);
    LatePrefix(outage, members, k);
    var prefix := outage[..k + 1];
    assert prefix[0] == outage[0] && |prefix| - 1 == k;
    OutageIsAnnouncedOnce(s, prefix, siteOf, siteId, members);
  }

  /** Site outage end to end. While every network-checked camera of a site (two or more) fails every probe,
    * no camera of the site raises an alert of its own, the outage is announced at most once and nothing else is
    * announced about the site, and it has been announced once some poll came 30 s after the first. */
  lemma SiteOutageEndToEnd(
    s: HealthState, outage: seq<Cycle>, siteOf: CameraId -> Option<SiteId>, siteId: SiteId, members: set<CameraId>)
    requires LedgerSound(s, siteOf) && RealSite(Some(siteId)) && LinkOf(s.links.states, siteId) != DOWN
    requires |members| >= 2 && outage != [] && AllDark(outage, siteOf, siteId, members)
    requires ClockMovesForward(s, outage[0], members)
    ensures AllCovered(s, outage, siteOf, siteId)
    ensures OutageLog(s, outage, siteId) == [] || OneOutageAlert(OutageLog(s, outage, siteId))
    ensures |outage| >= 2 && Late(outage, members, |outage| - 1) ==> OneOutageAlert(OutageLog(s, outage, siteId))
  {
    OutageIsCovered(s, outage, siteOf, siteId, members);
    OutageIsAnnouncedOnce(s, outage, siteOf, siteId, members);
  }
}
