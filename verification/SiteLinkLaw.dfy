/** When a site's link goes down, stays down and comes back, read off the checks of the polls. */
module SiteLinkLaw {
  import opened Options
  import opened CameraStatus
  import opened SiteOutage
  import opened AlertPolicy
  import opened CameraHealth
  import opened HealthRuns
  import opened SiteOutageRuns

  /** The outcome of the camera's network check: this poll's, or the remembered one if its check threw. */
  function Seen(s: HealthState, cycle: Cycle, camera: CameraId): NetworkCheck {
    if camera in cycle.checks then cycle.checks[camera].sample.networkCheck
    else if camera in s.cams then s.cams[camera].networkCheck
    else NOT_APPLICABLE
  }

  /** The `i`-th camera of the poll is a network-checked camera of the site. */
  predicate Probed(s: HealthState, cycle: Cycle, siteId: SiteId, i: int): (probed: bool)
    ensures probed ==> 0 <= i < |cycle.cameras|
  {
    && 0 <= i < |cycle.cameras|
    && cycle.cameras[i].siteId == Some(siteId) && cycle.cameras[i].id !in cycle.removed
    && Seen(s, cycle, cycle.cameras[i].id) != NOT_APPLICABLE
  }

  /** Two or more cameras of the site are network-checked, and every one of them failed. */
  ghost predicate Unreachable(s: HealthState, cycle: Cycle, siteId: SiteId) {
    && (exists i, j :: i < j && Probed(s, cycle, siteId, i) && Probed(s, cycle, siteId, j))
    && forall i :: Probed(s, cycle, siteId, i) ==> Seen(s, cycle, cycle.cameras[i].id) == FAILED
  }

  /** Every network-checked camera of the site is offline after the poll. */
  ghost predicate EachOffline(s: HealthState, cycle: Cycle, siteId: SiteId) {
    forall i :: Probed(s, cycle, siteId, i) ==>
                  var after := NextHealth(s, cycle).cams;
                  cycle.cameras[i].id in after && after[cycle.cameras[i].id].memory.status == OFFLINE
  }

  /** `ids` are the site's network-checked cameras. */
  ghost predicate ListsProbed(s: HealthState, cycle: Cycle, siteId: SiteId, ids: seq<CameraId>) {
    forall c :: c in ids <==> exists i :: Probed(s, cycle, siteId, i) && cycle.cameras[i].id == c
  }

  // ---------------------------------------------------------------------
  // The detector's group is the probed cameras
  // ---------------------------------------------------------------------

  predicate Sampled(cameras: seq<Camera>, cams: map<CameraId, CameraState>, siteId: SiteId, i: int): (sampled: bool)
    ensures sampled ==> 0 <= i < |cameras| && cameras[i].id in cams
  {
    && 0 <= i < |cameras| && cameras[i].siteId == Some(siteId)
    && cameras[i].id in cams && cams[cameras[i].id].networkCheck != NOT_APPLICABLE
  }

  lemma {:induction false} GroupHolds(
    cameras: seq<Camera>, cams: map<CameraId, CameraState>, siteId: SiteId, x: SiteSample)
    requires siteId != ""
    ensures x in Group(Samples(cameras, cams), siteId) <==>
              exists i :: Sampled(cameras, cams, siteId, i) && x == SampleOf(cameras[i], cams[cameras[i].id])
  {
    GroupMembers(Samples(cameras, cams), siteId, x);
    if x in Group(Samples(cameras, cams), siteId) {
      SamplesSound(cameras, cams, x);
    }
    if i :| Sampled(cameras, cams, siteId, i) && x == SampleOf(cameras[i], cams[cameras[i].id]) {
      SamplesComplete(cameras, cams, i);
    }
  }

  /** The group has two samples exactly when there are two such cameras. */
  lemma {:induction false} GroupOfTwo(cameras: seq<Camera>, cams: map<CameraId, CameraState>, siteId: SiteId)
    requires siteId != ""
    ensures |Group(Samples(cameras, cams), siteId)| >= 1 <==> exists i :: Sampled(cameras, cams, siteId, i)
    ensures |Group(Samples(cameras, cams), siteId)| >= 2 <==>
              exists i, j :: i < j && Sampled(cameras, cams, siteId, i) && Sampled(cameras, cams, siteId, j)
  {
    if cameras == [] {
    } else {
      var last := |cameras| - 1;
      GroupOfTwo(cameras[..last], cams, siteId);
      forall i | i < last
        ensures Sampled(cameras, cams, siteId, i) <==> Sampled(cameras[..last], cams, siteId, i)
      {
      }
      OneMoreSampled(cameras, cams, siteId);
    }
  }

  lemma OneMoreSampled(cameras: seq<Camera>, cams: map<CameraId, CameraState>, siteId: SiteId)
    requires siteId != "" && cameras != []
    ensures var last := |cameras| - 1;
            |Group(Samples(cameras, cams), siteId)|
            == |Group(Samples(cameras[..last], cams), siteId)| + (if Sampled(cameras, cams, siteId, last) then 1 else 0)
  {
  }

  lemma SampledIsProbed(s: HealthState, cycle: Cycle, siteId: SiteId, i: int)
    ensures Sampled(cycle.cameras, CamsAfter(s, cycle), siteId, i) <==> Probed(s, cycle, siteId, i)
    ensures Probed(s, cycle, siteId, i) ==>
              && cycle.cameras[i].id in CamsAfter(s, cycle)
              && CamsAfter(s, cycle)[cycle.cameras[i].id].networkCheck == Seen(s, cycle, cycle.cameras[i].id)
  {
    if 0 <= i < |cycle.cameras| {
      assert cycle.cameras[i].id in ActiveIds(cycle.cameras);
    }
  }

  /** `sample` is that of the `i`-th camera, which is probed. */
  predicate SampleAt(s: HealthState, cycle: Cycle, siteId: SiteId, i: int, sample: SiteSample) {
    && Probed(s, cycle, siteId, i) && cycle.cameras[i].id in CamsAfter(s, cycle)
    && sample == SampleOf(cycle.cameras[i], CamsAfter(s, cycle)[cycle.cameras[i].id])
  }

  ghost predicate OfPoll(s: HealthState, cycle: Cycle, siteId: SiteId, sample: SiteSample) {
    exists i :: SampleAt(s, cycle, siteId, i, sample)
  }

  lemma InGroupIffOfPoll(s: HealthState, cycle: Cycle, siteId: SiteId, sample: SiteSample)
    requires siteId != ""
    ensures sample in Group(Samples(cycle.cameras, CamsAfter(s, cycle)), siteId) <==> OfPoll(s, cycle, siteId, sample)
  {
    var cameras, cams := cycle.cameras, CamsAfter(s, cycle);
    hide CamsAfter, Samples, Group, Seen, Probed, Sampled;
    GroupHolds(cameras, cams, siteId, sample);
    if sample in Group(Samples(cameras, cams), siteId) {
      var i :| Sampled(cameras, cams, siteId, i) && sample == SampleOf(cameras[i], cams[cameras[i].id]);
      SampledIsProbed(s, cycle, siteId, i);
      assert SampleAt(s, cycle, siteId, i, sample);
    }
    if i :| SampleAt(s, cycle, siteId, i, sample) {
      SampledIsProbed(s, cycle, siteId, i);
    }
  }

  lemma SampleSays(s: HealthState, cycle: Cycle, siteId: SiteId, i: int, sample: SiteSample)
    requires SampleAt(s, cycle, siteId, i, sample)
    ensures Probed(s, cycle, siteId, i)
    ensures sample.cameraId == cycle.cameras[i].id
    ensures sample.unreachable <==> Seen(s, cycle, cycle.cameras[i].id) == FAILED
    ensures cycle.cameras[i].id in CamsAfter(s, cycle)
    ensures sample.status == CamsAfter(s, cycle)[cycle.cameras[i].id].memory.status
  {
    SampledIsProbed(s, cycle, siteId, i);
  }

  /** Every probed camera has its sample in the group. */
  lemma ProbedIsInGroup(s: HealthState, cycle: Cycle, siteId: SiteId, i: int) returns (k: nat)
    requires siteId != "" && Probed(s, cycle, siteId, i)
    ensures var group := Group(Samples(cycle.cameras, CamsAfter(s, cycle)), siteId);
            k < |group| && SampleAt(s, cycle, siteId, i, group[k])
  {
    SampledIsProbed(s, cycle, siteId, i);
    var sample := SampleOf(cycle.cameras[i], CamsAfter(s, cycle)[cycle.cameras[i].id]);
    hide CamsAfter, Samples, Group, Seen;
    assert SampleAt(s, cycle, siteId, i, sample);
    InGroupIffOfPoll(s, cycle, siteId, sample);
    k :| k < |Group(Samples(cycle.cameras, CamsAfter(s, cycle)), siteId)|
         && Group(Samples(cycle.cameras, CamsAfter(s, cycle)), siteId)[k] == sample;
  }

  /** Every sample of the group is a probed camera's. */
  lemma InGroupIsProbed(s: HealthState, cycle: Cycle, siteId: SiteId, k: nat) returns (i: int)
    requires siteId != "" && k < |Group(Samples(cycle.cameras, CamsAfter(s, cycle)), siteId)|
    ensures SampleAt(s, cycle, siteId, i, Group(Samples(cycle.cameras, CamsAfter(s, cycle)), siteId)[k])
  {
    hide CamsAfter, Samples, Group, Seen, Probed;
    var sample := Group(Samples(cycle.cameras, CamsAfter(s, cycle)), siteId)[k];
    InGroupIffOfPoll(s, cycle, siteId, sample);
    i :| SampleAt(s, cycle, siteId, i, sample);
  }

  lemma EachUnreachableReads(s: HealthState, cycle: Cycle, siteId: SiteId)
    requires siteId != ""
    ensures var group := Group(Samples(cycle.cameras, CamsAfter(s, cycle)), siteId);
            (forall k :: 0 <= k < |group| ==> group[k].unreachable)
            <==> forall i :: Probed(s, cycle, siteId, i) ==> Seen(s, cycle, cycle.cameras[i].id) == FAILED
  {
    var group := Group(Samples(cycle.cameras, CamsAfter(s, cycle)), siteId);
    hide CamsAfter, Samples, Group, Seen, Probed, SampleAt;
    if forall k :: 0 <= k < |group| ==> group[k].unreachable {
      forall i | Probed(s, cycle, siteId, i)
        ensures Seen(s, cycle, cycle.cameras[i].id) == FAILED
      {
        var k := ProbedIsInGroup(s, cycle, siteId, i);
        SampleSays(s, cycle, siteId, i, group[k]);
      }
    }
    if forall i :: Probed(s, cycle, siteId, i) ==> Seen(s, cycle, cycle.cameras[i].id) == FAILED {
      forall k | 0 <= k < |group|
        ensures group[k].unreachable
      {
        var i := InGroupIsProbed(s, cycle, siteId, k);
        SampleSays(s, cycle, siteId, i, group[k]);
      }
    }
  }

  lemma EachOfflineReads(s: HealthState, cycle: Cycle, siteId: SiteId)
    requires siteId != ""
    ensures var group := Group(Samples(cycle.cameras, CamsAfter(s, cycle)), siteId);
            (forall k :: 0 <= k < |group| ==> group[k].status == OFFLINE) <==> EachOffline(s, cycle, siteId)
  {
    var group := Group(Samples(cycle.cameras, CamsAfter(s, cycle)), siteId);
    hide CamsAfter, Samples, Group, Seen, Probed, SampleAt;
    if forall k :: 0 <= k < |group| ==> group[k].status == OFFLINE {
      forall i | Probed(s, cycle, siteId, i)
        ensures cycle.cameras[i].id in CamsAfter(s, cycle)
        ensures CamsAfter(s, cycle)[cycle.cameras[i].id].memory.status == OFFLINE
      {
        var k := ProbedIsInGroup(s, cycle, siteId, i);
        SampleSays(s, cycle, siteId, i, group[k]);
      }
    }
    if EachOffline(s, cycle, siteId) {
      forall k | 0 <= k < |group|
        ensures group[k].status == OFFLINE
      {
        var i := InGroupIsProbed(s, cycle, siteId, k);
        SampleSays(s, cycle, siteId, i, group[k]);
      }
    }
  }

  lemma GroupListsProbed(s: HealthState, cycle: Cycle, siteId: SiteId)
    requires siteId != ""
    ensures ListsProbed(s, cycle, siteId, CameraIds(Group(Samples(cycle.cameras, CamsAfter(s, cycle)), siteId)))
  {
    var group := Group(Samples(cycle.cameras, CamsAfter(s, cycle)), siteId);
    hide CamsAfter, Samples, Group, Seen, Probed, SampleAt;
    forall c
      ensures c in CameraIds(group) <==> exists i :: Probed(s, cycle, siteId, i) && cycle.cameras[i].id == c
    {
      if c in CameraIds(group) {
        var k :| 0 <= k < |group| && CameraIds(group)[k] == c;
        var i := InGroupIsProbed(s, cycle, siteId, k);
        SampleSays(s, cycle, siteId, i, group[k]);
      }
      if i :| Probed(s, cycle, siteId, i) && cycle.cameras[i].id == c {
        var k := ProbedIsInGroup(s, cycle, siteId, i);
        SampleSays(s, cycle, siteId, i, group[k]);
        assert CameraIds(group)[k] == c;
      }
    }
  }

  lemma GroupSize(s: HealthState, cycle: Cycle, siteId: SiteId)
    requires siteId != ""
    ensures var group := Group(Samples(cycle.cameras, CamsAfter(s, cycle)), siteId);
            && (group == [] <==> forall i :: !Probed(s, cycle, siteId, i))
            && (|group| >= 2 <==>
                  exists i, j :: i < j && Probed(s, cycle, siteId, i) && Probed(s, cycle, siteId, j))
  {
    hide CamsAfter, Samples, Group, Seen, Probed, Sampled;
    GroupOfTwo(cycle.cameras, CamsAfter(s, cycle), siteId);
    forall i
      ensures Sampled(cycle.cameras, CamsAfter(s, cycle), siteId, i) <==> Probed(s, cycle, siteId, i)
    {
      SampledIsProbed(s, cycle, siteId, i);
    }
  }

  /** What the detector makes of a site, in terms of the poll. */
  lemma GroupReads(s: HealthState, cycle: Cycle, siteId: SiteId)
    requires siteId != ""
    ensures var group := Group(Samples(cycle.cameras, CamsAfter(s, cycle)), siteId);
            && (group == [] <==> forall i :: !Probed(s, cycle, siteId, i))
            && (AllUnreachable(group) <==> Unreachable(s, cycle, siteId))
            && (AllOffline(group) <==> Unreachable(s, cycle, siteId) && EachOffline(s, cycle, siteId))
            && ListsProbed(s, cycle, siteId, CameraIds(group))
  {
    hide CamsAfter, Samples, Group, Seen, Probed, EachOffline, ListsProbed;
    GroupSize(s, cycle, siteId);
    EachUnreachableReads(s, cycle, siteId);
    EachOfflineReads(s, cycle, siteId);
    GroupListsProbed(s, cycle, siteId);
  }

  // ---------------------------------------------------------------------
  // The law of a site's link
  // ---------------------------------------------------------------------

  lemma LinkStep(links: Links, samples: seq<SiteSample>, now: int, siteId: SiteId)
    ensures LinkOf(NextLinks(links, samples, now).states, siteId)
            == var group := Group(samples, siteId);
               if group == [] then UP else NextLink(LinkOf(links.states, siteId), group)
  {
    SiteOrderMember(samples, siteId);
  }

  lemma RunStep(run: seq<HealthStep>, cycle: Cycle, siteId: SiteId)
    ensures var after := run + [Polled(cycle)];
            && Health(after) == NextHealth(Health(run), cycle)
            && SiteLog(after, siteId) == SiteLog(run, siteId) + About(CycleAnnouncements(Health(run), cycle), siteId)
  {
    assert (run + [Polled(cycle)])[..|run|] == run;
  }

  lemma OneMoreLogged(log: seq<SiteTransition>, more: seq<SiteTransition>)
    requires |more| <= 1
    ensures more == [] ==> log + more == log
    ensures more != [] ==> |log + more| == |log| + 1 && (log + more)[..|log|] == log && (log + more)[|log|] == more[0]
  {
  }

  /** One poll decides a site's link and what is announced about it. A site goes down when two or more of its cameras
    * are network-checked, all failed, and all are offline; it stays down while two or more are checked and all failed;
    * it is suspected when all failed otherwise, and up in any other case. Going down and coming back are announced
    * with the checked cameras; only a site whose last checked camera is gone comes up in silence. */
  lemma LinkAfterPoll(run: seq<HealthStep>, cycle: Cycle, siteId: SiteId)
    requires siteId != ""
    ensures var s, after := Health(run), run + [Polled(cycle)];
            var was, now := LinkOf(s.links.states, siteId), LinkOf(Health(after).links.states, siteId);
            && (now == DOWN <==> Unreachable(s, cycle, siteId) && (was == DOWN || EachOffline(s, cycle, siteId)))
            && (now == SUSPECTED <==> Unreachable(s, cycle, siteId) && now != DOWN)
            && var log, log' := SiteLog(run, siteId), SiteLog(after, siteId);
               if (was == DOWN) == (now == DOWN) || forall i :: !Probed(s, cycle, siteId, i) then log' == log
               else
                 && |log'| == |log| + 1 && log'[..|log|] == log
                 && log'[|log|].siteId == siteId && (log'[|log|].SiteOffline? <==> now == DOWN)
                 && ListsProbed(s, cycle, siteId, log'[|log|].cameraIds)
                 && (log'[|log|].SiteOnline? && s.links.Since(siteId).Some? ==>
                       log'[|log|].outageDurationMs == Some(cycle.now - s.links.Since(siteId).value))
  {
    var s := Health(run);
    var samples := Samples(cycle.cameras, CamsAfter(s, cycle));
    hide *;
    RunStep(run, cycle, siteId);
    CycleAnnouncesSite(s, cycle, siteId);
    GroupReads(s, cycle, siteId);
    LinkStep(s.links, samples, cycle.now, siteId);
    LinksOf(s, cycle);
    LinkLaw(siteId, LinkOf(s.links.states, siteId), s.links.Since(siteId), Group(samples, siteId), cycle.now);
    OneMoreLogged(SiteLog(run, siteId), About(CycleAnnouncements(s, cycle), siteId));
  }

  lemma LinksOf(s: HealthState, cycle: Cycle)
    ensures NextHealth(s, cycle).links == NextLinks(s.links, Samples(cycle.cameras, CamsAfter(s, cycle)), cycle.now)
  {
  }

  lemma LinkLaw(siteId: SiteId, was: LinkState, since: Option<int>, group: seq<SiteSample>, at: int)
    ensures var now, said := if group == [] then UP else NextLink(was, group), Announce(siteId, was, since, group, at);
            && (AllOffline(group) ==> AllUnreachable(group)) && (AllUnreachable(group) ==> group != [])
            && (now == DOWN <==> AllUnreachable(group) && (was == DOWN || AllOffline(group)))
            && (now == SUSPECTED <==> AllUnreachable(group) && now != DOWN)
            && |said| <= 1
            && (group != [] ==> (said == [] <==> (was == DOWN) == (now == DOWN)))
            && (group != [] && said != [] ==>
                  && said[0].siteId == siteId && (said[0].SiteOffline? <==> now == DOWN)
                  && said[0].cameraIds == CameraIds(group)
                  && (said[0].SiteOnline? && since.Some? ==> said[0].outageDurationMs == Some(at - since.value)))
  {
  }

  lemma {:induction false} NoGroupWithoutName(samples: seq<SiteSample>)
    ensures Group(samples, "") == []
  {
    if samples == [] {
    } else {
      NoGroupWithoutName(samples[..|samples| - 1]);
    }
  }

  /** The empty string names no site: it is never suspected or down, and nothing is announced about it. */
  lemma {:induction false} NoSiteWithoutName(run: seq<HealthStep>)
    ensures LinkOf(Health(run).links.states, "") == UP && SiteLog(run, "") == []
  {
    if run == [] {
    } else {
      var before, step := run[..|run| - 1], run[|run| - 1];
      NoSiteWithoutName(before);
      if step.Polled? {
        var samples := Samples(step.cycle.cameras, CamsAfter(Health(before), step.cycle));
        NoGroupWithoutName(samples);
        LinkStep(Health(before).links, samples, step.cycle.now, "");
        CycleAnnouncesSite(Health(before), step.cycle, "");
        hide Samples, CamsAfter, CycleAnnouncements, NextLinks;
      }
    }
  }

  // ---------------------------------------------------------------------
  // Recovery
  // ---------------------------------------------------------------------

  /** Step `k` is the poll that made the last announcement about the site. */
  ghost predicate LastAnnounced(run: seq<HealthStep>, siteId: SiteId, k: nat) {
    && k < |run| && run[k].Polled?
    && SiteLog(run[..k], siteId) != SiteLog(run[..k + 1], siteId)
    && SiteLog(run[..k + 1], siteId) == SiteLog(run, siteId)
  }

  lemma SinceStep(links: Links, samples: seq<SiteSample>, now: int, siteId: SiteId)
    ensures LinkOf(NextLinks(links, samples, now).states, siteId) == DOWN ==>
              NextLinks(links, samples, now).Since(siteId)
              == if LinkOf(links.states, siteId) == DOWN then links.Since(siteId) else Some(now)
  {
    SiteOrderMember(samples, siteId);
  }

  lemma {:induction false} LogsOfPrefixes(run: seq<HealthStep>, i: nat, siteId: SiteId)
    requires i <= |run|
    ensures |SiteLog(run[..i], siteId)| <= |SiteLog(run, siteId)|
    decreases |run|
  {
    if i == |run| {
      assert run[..i] == run;
    } else {
      LogsOfPrefixes(run[..|run| - 1], i, siteId);
      assert run[..|run| - 1][..i] == run[..i];
    }
  }

  lemma RunEndsWith(run: seq<HealthStep>)
    requires run != []
    ensures var before, step := run[..|run| - 1], run[|run| - 1];
            run == before + [step] && (step.Removed? ==> Health(run).links == Health(before).links)
  {
  }

  lemma RemovalIsSilent(run: seq<HealthStep>, siteId: SiteId)
    requires run != [] && run[|run| - 1].Removed?
    ensures SiteLog(run, siteId) == SiteLog(run[..|run| - 1], siteId)
  {
  }

  /** A site that is down was so before the step, or goes down by it. */
  lemma DownStep(run: seq<HealthStep>, siteId: SiteId)
    requires siteId != "" && run != [] && LinkOf(Health(run).links.states, siteId) == DOWN
    ensures var before, step := run[..|run| - 1], run[|run| - 1];
            if LinkOf(Health(before).links.states, siteId) == DOWN then
              && SiteLog(run, siteId) == SiteLog(before, siteId)
              && Health(run).links.Since(siteId) == Health(before).links.Since(siteId)
            else
              && step.Polled? && SiteLog(run, siteId) != SiteLog(before, siteId)
              && Health(run).links.Since(siteId) == Some(step.cycle.now)
  {
    hide *;
    var before, step := run[..|run| - 1], run[|run| - 1];
    RunEndsWith(run);
    if step.Polled? {
      RunStep(before, step.cycle, siteId);
      LinksOf(Health(before), step.cycle);
      SinceStep(Health(before).links, Samples(step.cycle.cameras, CamsAfter(Health(before), step.cycle)),
                step.cycle.now, siteId);
      LinkAfterPoll(before, step.cycle, siteId);
      UnreachableIsProbed(Health(before), step.cycle, siteId);
    } else {
      RemovalIsSilent(run, siteId);
    }
  }

  lemma UnreachableIsProbed(s: HealthState, cycle: Cycle, siteId: SiteId)
    ensures Unreachable(s, cycle, siteId) ==> exists i :: Probed(s, cycle, siteId, i)
  {
  }

  /** A site that is down has been announced so, and remembers the poll that did it. */
  lemma {:induction false} DownSinceAnnounced(run: seq<HealthStep>, siteId: SiteId) returns (k: nat)
    requires siteId != "" && LinkOf(Health(run).links.states, siteId) == DOWN
    ensures LastAnnounced(run, siteId, k) && Health(run).links.Since(siteId) == Some(run[k].cycle.now)
  {
    hide Health, SiteLog, LinkOf;
    if run == [] {
      NothingLogged(siteId);
      assert false;
    } else {
      var before := run[..|run| - 1];
      DownStep(run, siteId);
      assert run[..|run|] == run;
      if LinkOf(Health(before).links.states, siteId) == DOWN {
        k := DownSinceAnnounced(before, siteId);
        assert run[..k] == before[..k] && run[..k + 1] == before[..k + 1];
      } else {
        k := |run| - 1;
      }
    }
  }

  lemma LogOfShorterPrefix(run: seq<HealthStep>, i: nat, j: nat, siteId: SiteId)
    requires i <= j <= |run|
    ensures |SiteLog(run[..i], siteId)| <= |SiteLog(run[..j], siteId)|
  {
    LogsOfPrefixes(run[..j], i, siteId);
    assert run[..j][..i] == run[..i];
  }

  lemma LogGrowsBy(run: seq<HealthStep>, k: nat, siteId: SiteId)
    requires k < |run|
    ensures SiteLog(run[..k], siteId) != SiteLog(run[..k + 1], siteId) ==>
              |SiteLog(run[..k], siteId)| < |SiteLog(run[..k + 1], siteId)|
  {
    assert run[..k + 1][..k] == run[..k];
  }

  /** Only one poll made the last announcement. */
  lemma LastAnnouncedOnce(run: seq<HealthStep>, siteId: SiteId, j: nat, k: nat)
    requires LastAnnounced(run, siteId, j) && k < |run|
    ensures LastAnnounced(run, siteId, k) ==> k == j
  {
    if j < k {
      LogOfShorterPrefix(run, j + 1, k, siteId);
      LogGrowsBy(run, k, siteId);
    } else if k < j {
      LogOfShorterPrefix(run, k + 1, j, siteId);
      LogGrowsBy(run, j, siteId);
    }
  }

  /** A site that is down stays down exactly while two or more of its cameras are network-checked and all of them fail.
    * Any other poll with a checked camera of the site brings it up and announces that once, with the checked cameras
    * and the time since the poll that announced the outage. */
  lemma RecoveryIsAnnounced(run: seq<HealthStep>, cycle: Cycle, siteId: SiteId, k: nat)
    requires siteId != "" && LinkOf(Health(run).links.states, siteId) == DOWN
    requires LastAnnounced(run, siteId, k)
    ensures var s, after := Health(run), run + [Polled(cycle)];
            var now := LinkOf(Health(after).links.states, siteId);
            && (now == DOWN <==> Unreachable(s, cycle, siteId))
            && (now == DOWN ==> SiteLog(after, siteId) == SiteLog(run, siteId))
            && (now != DOWN ==> now == UP)
            && (now != DOWN && (exists i :: Probed(s, cycle, siteId, i)) ==>
                  exists ids :: && ListsProbed(s, cycle, siteId, ids)
                                && SiteLog(after, siteId) == SiteLog(run, siteId)
                                     + [SiteOnline(siteId, ids, Some(cycle.now - run[k].cycle.now))])
  {
    hide *;
    var j := DownSinceAnnounced(run, siteId);
    LastAnnouncedMeans(run, siteId, k);
    LastAnnouncedOnce(run, siteId, j, k);
    LinkAfterPoll(run, cycle, siteId);
    var log, log' := SiteLog(run, siteId), SiteLog(run + [Polled(cycle)], siteId);
    if |log'| > |log| {
      assert log' == log + [log'[|log|]];
      assert log'[|log|] == SiteOnline(siteId, log'[|log|].cameraIds, Some(cycle.now - run[k].cycle.now));
    }
  }

  lemma LastAnnouncedMeans(run: seq<HealthStep>, siteId: SiteId, k: nat)
    requires LastAnnounced(run, siteId, k)
    ensures k < |run| && run[k].Polled?
  {
  }
}
