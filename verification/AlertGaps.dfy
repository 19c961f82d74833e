/** Runs of the health poller in which site alerts do not alternate, and in which an alert reaches no channel. */
module AlertGaps {
  import opened Options
  import opened CameraStatus
  import opened SiteOutage
  import opened AlertPolicy
  import opened CameraHealth
  import opened HealthRuns

  const SITE: SiteId := "s"

  /** Two cameras with a TCP probe, and one without, all at one site. */
  const CAMERAS := [Camera("a", Some(SITE)), Camera("b", Some(SITE)), Camera("c", Some(SITE))]

  const HANDSHAKE_FAILED := HealthSample(FAILED, None, false, None)
  const STREAM_LOST := HealthSample(NOT_APPLICABLE, None, false, None)

  function DarkChecks(at: int): map<CameraId, Poll> {
    map["a" := Poll(HANDSHAKE_FAILED, at), "b" := Poll(HANDSHAKE_FAILED, at), "c" := Poll(STREAM_LOST, at)]
  }

  /** A poll of the three cameras while the site's uplink is dead. */
  function Dark(at: int): Cycle {
    Cycle(CAMERAS, DarkChecks(at), {}, at)
  }

  /** A poll of an installation without cameras. */
  function Deserted(at: int): Cycle {
    Cycle([], map[], {}, at)
  }

  /** What the service remembers of the three cameras. */
  function Remembered(probed: StatusMemory, unprobed: StatusMemory): map<CameraId, CameraState> {
    map["a" := CameraState(probed, FAILED), "b" := CameraState(probed, FAILED),
        "c" := CameraState(unprobed, NOT_APPLICABLE)]
  }

  function FirstFailure(at: int): map<CameraId, CameraState> {
    Remembered(StatusMemory(UNKNOWN, 1, Some(at), Some(at)), StatusMemory(UNKNOWN, 1, Some(at), None))
  }

  function SecondFailure(at: int): map<CameraId, CameraState> {
    Remembered(StatusMemory(OFFLINE, 2, Some(at), Some(at)), StatusMemory(DEGRADED, 2, Some(at), None))
  }

  lemma ListedCameras()
    ensures ActiveIds(CAMERAS) == {"a", "b", "c"}
    ensures SiteOf(CAMERAS, "c") == Some(SITE)
    ensures DistinctCameras(CAMERAS)
  {
    assert CAMERAS[0].id == "a" && CAMERAS[1].id == "b" && CAMERAS[2].id == "c";
  }

  lemma FirstDark(s: HealthState, at: int)
    requires s.cams == map[]
    ensures CamsAfter(s, Dark(at)) == FirstFailure(at)
  {
    ListedCameras();
  }

  lemma SecondDark(s: HealthState, at: int)
    requires s.cams == FirstFailure(at)
    ensures CamsAfter(s, Dark(at + OFFLINE_AFTER_MS)) == SecondFailure(at)
    ensures PendingAfter(s, Dark(at + OFFLINE_AFTER_MS), "c") == Some(Pending("c", DEGRADED, UNKNOWN, None))
  {
    ListedCameras();
  }

  function SampleOf(camera: Camera, state: CameraState): SiteSample {
    SiteSample(camera.id, camera.siteId, state.memory.status,
               state.networkCheck != NOT_APPLICABLE, state.networkCheck == FAILED)
  }

  lemma OneMoreSampled(cameras: seq<Camera>, camera: Camera, cams: map<CameraId, CameraState>)
    requires camera.id in cams && camera.siteId == Some(SITE)
    ensures var sample := SampleOf(camera, cams[camera.id]);
            Group(Samples(cameras + [camera], cams), SITE)
            == Group(Samples(cameras, cams), SITE) + (if sample.networkChecked then [sample] else [])
  {
    var samples, sample := Samples(cameras, cams), SampleOf(camera, cams[camera.id]);
    assert (cameras + [camera])[..|cameras|] == cameras;
    assert (samples + [sample])[..|samples|] == samples;
  }

  /** The site's group in the dark is its two probed cameras, both offline. */
  lemma GroupInTheDark(at: int)
    ensures AllOffline(Group(Samples(CAMERAS, SecondFailure(at)), SITE))
  {
    var cams := SecondFailure(at);
    OneMoreSampled([], CAMERAS[0], cams);
    OneMoreSampled([CAMERAS[0]], CAMERAS[1], cams);
    OneMoreSampled([CAMERAS[0], CAMERAS[1]], CAMERAS[2], cams);
    assert [] + [CAMERAS[0]] == [CAMERAS[0]];
    assert [CAMERAS[0]] + [CAMERAS[1]] == [CAMERAS[0], CAMERAS[1]];
    assert [CAMERAS[0], CAMERAS[1]] + [CAMERAS[2]] == CAMERAS;
    NothingSampled(cams);
    hide Samples, Group;
  }

  lemma NothingSampled(cams: map<CameraId, CameraState>)
    ensures Group(Samples([], cams), SITE) == []
  {
  }

  lemma LinkGoesDown(s: HealthState, cycle: Cycle)
    requires AllOffline(Group(Samples(cycle.cameras, CamsAfter(s, cycle)), SITE))
    ensures LinkOf(LinksAfter(s, cycle).states, SITE) == DOWN
  {
    SiteOrderMember(Samples(cycle.cameras, CamsAfter(s, cycle)), SITE);
  }

  lemma UnprobedIsSuppressed(states: map<SiteId, LinkState>, suppressed: map<CameraId, SiteId>)
    requires LinkOf(states, SITE) == DOWN
    ensures EntryAfter(suppressed, states, CAMERAS, Some(Pending("c", DEGRADED, UNKNOWN, None)), "c") == Some(SITE)
  {
    ListedCameras();
  }

  /** The second poll of the dark site finds the outage and suppresses the degraded camera's own alert. */
  lemma SecondDarkMeans(s: HealthState, at: int)
    requires s.cams == FirstFailure(at)
    ensures var cycle := Dark(at + OFFLINE_AFTER_MS);
            && AllOffline(Group(Samples(CAMERAS, CamsAfter(s, cycle)), SITE))
            && CamsAfter(s, cycle) == SecondFailure(at)
            && LinkOf(LinksAfter(s, cycle).states, SITE) == DOWN
            && Entry(SuppressedAfter(s, cycle), "c") == Some(SITE)
  {
    var cycle := Dark(at + OFFLINE_AFTER_MS);
    SecondDark(s, at);
    GroupInTheDark(at);
    LinkGoesDown(s, cycle);
    SuppressedAfterMeans(s, cycle, "c");
    UnprobedIsSuppressed(LinksAfter(s, cycle).states, Pruned(s, cycle));
    hide *;
    hide DarkChecks, Entry, EntryAfter, Samples;
  }

  /** Two polls of the dark site, 30 s apart. */
  function DarkTwice(run: seq<HealthStep>, at: int): seq<HealthStep> {
    run + [Polled(Dark(at)), Polled(Dark(at + OFFLINE_AFTER_MS))]
  }

  lemma RunSnoc(run: seq<HealthStep>, step: HealthStep)
    ensures (run + [step])[..|run|] == run
    ensures Health(run + [step]) == ApplyStep(Health(run), step)
  {
  }

  lemma OutageByLastPoll(run: seq<HealthStep>, cycle: Cycle)
    requires AllOffline(Group(Samples(cycle.cameras, CamsAfter(Health(run), cycle)), SITE))
    ensures OutageAt(run + [Polled(cycle)], |run|, SITE)
  {
    hide Health, AllOffline, Group, Samples, CamsAfter;
    assert (run + [Polled(cycle)])[..|run|] == run;
  }

  lemma NobodyKnown()
    ensures Health([]).cams == map[]
  {
  }

  /** From a service that knows no camera they end in an outage of the site, which is down then, and in a degraded
    * camera whose alert is suppressed. */
  lemma DarkTwiceMeans(run: seq<HealthStep>, at: int)
    requires Health(run).cams == map[]
    ensures var dark := DarkTwice(run, at);
            && OutageAt(dark, |run| + 1, SITE)
            && LinkOf(Health(dark).links.states, SITE) == DOWN
            && Health(dark).cams == SecondFailure(at)
            && Entry(Health(dark).suppressed, "c") == Some(SITE)
  {
    hide Health, CamsAfter, Samples, Group, LinksAfter, SuppressedAfter, Entry, FirstFailure, SecondFailure, AllOffline;
    hide OutageAt, DarkChecks, LinkOf;
    var first := run + [Polled(Dark(at))];
    var cycle := Dark(at + OFFLINE_AFTER_MS);
    RunSnoc(run, Polled(Dark(at)));
    RunSnoc(first, Polled(cycle));
    assert DarkTwice(run, at) == first + [Polled(cycle)];
    FirstDark(Health(run), at);
    SecondDarkMeans(Health(first), at);
    OutageByLastPoll(first, cycle);
  }

  /** A dark site, then an installation without cameras. */
  function DarkThenDeserted(): seq<HealthStep> {
    DarkTwice([], 0) + [Polled(Deserted(60_000))]
  }

  lemma DesertedForgets(s: HealthState, at: int)
    ensures CamsAfter(s, Deserted(at)) == map[]
    ensures Group(Samples([], map[]), SITE) == []
  {
  }

  lemma DesertedDrops()
    ensures DroppedWhileDown(DarkThenDeserted(), 2, SITE)
    ensures Health(DarkThenDeserted()).cams == map[]
  {
    var dark := DarkTwice([], 0);
    NobodyKnown();
    DarkTwiceMeans([], 0);
    RunSnoc(dark, Polled(Deserted(60_000)));
    DesertedForgets(Health(dark), 60_000);
    hide Health, CamsAfter, Samples, Group, Dark;
  }

  lemma DropInLongerRun(run: seq<HealthStep>, more: seq<HealthStep>, i: nat)
    requires i < |run| && DroppedWhileDown(run, i, SITE)
    ensures DroppedWhileDown(run + more, i, SITE)
  {
    assert (run + more)[..i] == run[..i];
  }

  /** The site goes dark, loses its cameras, gets them back and goes dark again: its two outages are announced with no
    * recovery between them. */
  lemma SiteAlertsNeedNotAlternate()
    ensures !Alternates(SiteLog(DarkTwice(DarkThenDeserted(), 90_000), SITE))
  {
    hide Alternates, SiteLog, DroppedWhileDown, OutageAt, Health, Dark, Deserted;
    var run := DarkTwice(DarkThenDeserted(), 90_000);
    DesertedDrops();
    DarkTwiceMeans(DarkThenDeserted(), 90_000);
    DropInLongerRun(DarkThenDeserted(), [Polled(Dark(90_000)), Polled(Dark(90_000 + OFFLINE_AFTER_MS))], 2);
    SiteLogAlternatesIff(run, SITE);
    assert OutageAt(run, 4, SITE);
  }

  lemma OneSite(siteOf: CameraId -> Option<SiteId>)
    requires forall c :: siteOf(c) == Some(SITE)
    ensures FixedSites(DarkTwice([], 0), siteOf)
  {
    ListedCameras();
  }

  /** A channel for degraded cameras alone hears nothing of the camera without a probe when the site goes dark. */
  lemma DegradedChannelHearsNothing()
    ensures var run := DarkTwice([], 0);
            && Health(run).cams == SecondFailure(0)
            && LinkOf(Health(run).links.states, SITE) == DOWN
            && Life(run, "c") != []
            && ChannelWantsEvent({"camera.degraded"}, EventType(Life(run, "c")[|Life(run, "c")| - 1]))
            && !Hears({"camera.degraded"}, Life(run, "c"), SiteLog(run, SITE))
  {
    hide Health, Life, SiteLog, FixedSites, Dark, DarkTwice, OutageAt, Hears;
    var run := DarkTwice([], 0);
    var siteOf: CameraId -> Option<SiteId> := _ => Some(SITE);
    NobodyKnown();
    DarkTwiceMeans([], 0);
    OneSite(siteOf);
    NoAlertLost(run, siteOf, "c");
    ChannelHearsIff(run, siteOf, "c", {"camera.degraded"});
  }
}
