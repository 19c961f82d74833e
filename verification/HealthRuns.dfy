/** What the health poller guarantees over whole runs: no alert lost, none repeated, and one
  * site alert per site outage. */
module HealthRuns {
  import opened Options
  import opened CameraStatus
  import opened SiteOutage
  import opened AlertPolicy
  import opened CameraHealth

  datatype HealthStep =
    | Polled(cycle: Cycle)
    | Removed(camera: CameraId)

  function ApplyStep(s: HealthState, step: HealthStep): HealthState {
    match step
    case Polled(cycle) => NextHealth(s, cycle)
    case Removed(camera) => s.(cams := s.cams - {camera})
  }

  function Health(run: seq<HealthStep>): HealthState {
    if run == [] then INITIAL_HEALTH else ApplyStep(Health(run[..|run| - 1]), run[|run| - 1])
  }

  predicate Forgets(step: HealthStep, camera: CameraId) {
    match step
    case Polled(cycle) => camera !in ActiveIds(cycle.cameras) || camera in cycle.removed
    case Removed(other) => camera == other
  }

  /** The events about a camera since the service last forgot it. */
  function Life(run: seq<HealthStep>, camera: CameraId): seq<Event> {
    if run == [] then []
    else
      var before := run[..|run| - 1];
      var step := run[|run| - 1];
      if Forgets(step, camera) then []
      else if step.Polled? then Life(before, camera) + CycleEvents(Health(before), step.cycle, camera)
      else Life(before, camera)
  }

  /** Everything announced about a site. */
  function SiteLog(run: seq<HealthStep>, siteId: SiteId): seq<SiteTransition> {
    if run == [] then []
    else
      var before := run[..|run| - 1];
      var step := run[|run| - 1];
      SiteLog(before, siteId)
      + (if step.Polled? then About(CycleAnnouncements(Health(before), step.cycle), siteId) else [])
  }

  /** Cameras never change site during the run, and no cycle lists a camera twice. */
  ghost predicate FixedSites(run: seq<HealthStep>, siteOf: CameraId -> Option<SiteId>) {
    forall k :: 0 <= k < |run| && run[k].Polled? ==> run[k].cycle.Valid() && SitesAre(run[k].cycle, siteOf)
  }

  ghost predicate SitesAre(cycle: Cycle, siteOf: CameraId -> Option<SiteId>) {
    forall i :: 0 <= i < |cycle.cameras| ==> cycle.cameras[i].siteId == siteOf(cycle.cameras[i].id)
  }

  lemma {:induction false} SiteOfListed(cameras: seq<Camera>, camera: CameraId, siteOf: CameraId -> Option<SiteId>)
    requires forall i :: 0 <= i < |cameras| ==> cameras[i].siteId == siteOf(cameras[i].id)
    ensures camera in ActiveIds(cameras) ==> SiteOf(cameras, camera) == siteOf(camera)
    ensures camera !in ActiveIds(cameras) ==> SiteOf(cameras, camera).None?
  {
    if cameras == [] {
    } else {
      var init := cameras[..|cameras| - 1];
      SiteOfListed(init, camera, siteOf);
      if camera in ActiveIds(cameras) && cameras[|cameras| - 1].id != camera {
        var i :| 0 <= i < |cameras| && cameras[i].id == camera;
        assert init[i].id == camera;
      }
    }
  }

  // ---------------------------------------------------------------------
  // The alert attribution ledger
  // ---------------------------------------------------------------------

  /** A suppressed camera is filed under its own site, whose link is not up. */
  ghost predicate LedgerSound(s: HealthState, siteOf: CameraId -> Option<SiteId>) {
    forall c :: c in s.suppressed ==>
                  && RealSite(siteOf(c)) && siteOf(c) == Some(s.suppressed[c])
                  && LinkOf(s.links.states, s.suppressed[c]) != UP
  }

  /** The last event of a camera says its present status and carries its ledger entry. */
  ghost predicate Announced(s: HealthState, life: seq<Event>, camera: CameraId) {
    && (forall i :: 0 <= i < |life| ==> life[i].CameraEvent? && life[i].cameraId == camera)
    && (camera !in s.cams ==> life == [])
    && (camera in s.cams && life == [] ==> !Failing(s.cams[camera].memory.status))
    && (camera in s.cams && life != [] ==>
          && s.cams[camera].memory.status != UNKNOWN
          && life[|life| - 1].status == s.cams[camera].memory.status
          && (Failing(s.cams[camera].memory.status) ==> life[|life| - 1].siteOutage == Entry(s.suppressed, camera)))
  }

  ghost predicate Repeats(first: Event, second: Event) {
    && first.CameraEvent? && second.CameraEvent?
    && AlertFor(first).Some? && AlertFor(second).Some?
    && first.status == second.status
  }

  /** Two alerts in a row about one camera never say the same thing. */
  ghost predicate NoRepeat(life: seq<Event>) {
    forall i :: 0 < i < |life| ==> !Repeats(life[i - 1], life[i])
  }

  lemma LedgerStep(s: HealthState, step: HealthStep, siteOf: CameraId -> Option<SiteId>)
    requires LedgerSound(s, siteOf)
    requires step.Polled? ==> step.cycle.Valid() && SitesAre(step.cycle, siteOf)
    ensures LedgerSound(ApplyStep(s, step), siteOf)
  {
    if step.Polled? {
      var after := NextHealth(s, step.cycle);
      forall c | c in after.suppressed
        ensures && RealSite(siteOf(c)) && siteOf(c) == Some(after.suppressed[c])
                && LinkOf(after.links.states, after.suppressed[c]) != UP
      {
        SiteOfListed(step.cycle.cameras, c, siteOf);
      }
    }
  }

  /** What one cycle does to a camera it keeps. */
  lemma CycleEffect(s: HealthState, cycle: Cycle, camera: CameraId)
    requires camera in ActiveIds(cycle.cameras) && camera !in cycle.removed
    ensures var after := NextHealth(s, cycle);
            && camera in after.cams
            && after.cams[camera] == AfterCheck(s.Before(camera), CheckOf(cycle, camera))
    ensures var after := NextHealth(s, cycle);
            var t := TransitionOf(camera, s.Before(camera), CheckOf(cycle, camera));
            && CycleEvents(s, cycle, camera)
               == EmitFor(after.cams, s.suppressed, after.links.states, cycle.cameras, t, camera)
            && Entry(after.suppressed, camera)
               == EntryAfter(s.suppressed, after.links.states, cycle.cameras, t, camera)
  {
    assert Entry(Pruned(s, cycle), camera) == Entry(s.suppressed, camera);
  }

  lemma AnnouncedStep(s: HealthState, step: HealthStep, life: seq<Event>, camera: CameraId)
    requires Announced(s, life, camera) && NoRepeat(life)
    ensures var life' := if Forgets(step, camera) then []
                         else if step.Polled? then life + CycleEvents(s, step.cycle, camera) else life;
            Announced(ApplyStep(s, step), life', camera) && NoRepeat(life')
  {
    if step.Polled? && !Forgets(step, camera) {
      CycleEffect(s, step.cycle, camera);
      var after := NextHealth(s, step.cycle);
      var t := TransitionOf(camera, s.Before(camera), CheckOf(step.cycle, camera));
      AnnouncedCamera(s, after, life, camera, CheckOf(step.cycle, camera), step.cycle.cameras, t);
    }
  }

  lemma AnnouncedCamera(
    s: HealthState, after: HealthState, life: seq<Event>, camera: CameraId,
    checked: Option<Poll>, cameras: seq<Camera>, t: Option<Pending>)
    requires Announced(s, life, camera) && NoRepeat(life)
    requires t == TransitionOf(camera, s.Before(camera), checked)
    requires camera in after.cams && after.cams[camera] == AfterCheck(s.Before(camera), checked)
    requires Entry(after.suppressed, camera) == EntryAfter(s.suppressed, after.links.states, cameras, t, camera)
    ensures var life' := life + EmitFor(after.cams, s.suppressed, after.links.states, cameras, t, camera);
            Announced(after, life', camera) && NoRepeat(life')
  {
    var emitted := EmitFor(after.cams, s.suppressed, after.links.states, cameras, t, camera);
    if emitted == [] {
      assert life + emitted == life;
      AnnouncesNothing(s, after, life, camera, checked, cameras, t);
    } else {
      assert emitted == [emitted[0]];
      AnnouncesOne(s, after, life, camera, checked, cameras, t, emitted[0]);
      LifeSnoc(after, life, emitted[0], camera);
    }
  }

  lemma AnnouncesNothing(
    s: HealthState, after: HealthState, life: seq<Event>, camera: CameraId,
    checked: Option<Poll>, cameras: seq<Camera>, t: Option<Pending>)
    requires Announced(s, life, camera)
    requires t == TransitionOf(camera, s.Before(camera), checked)
    requires camera in after.cams && after.cams[camera] == AfterCheck(s.Before(camera), checked)
    requires Entry(after.suppressed, camera) == EntryAfter(s.suppressed, after.links.states, cameras, t, camera)
    requires EmitFor(after.cams, s.suppressed, after.links.states, cameras, t, camera) == []
    ensures Announced(after, life, camera)
  {
  }

  /** The one event of a cycle says the camera's new status, carries its new ledger entry, and, if it alerts, does not
    * repeat the alert before it. */
  lemma AnnouncesOne(
    s: HealthState, after: HealthState, life: seq<Event>, camera: CameraId,
    checked: Option<Poll>, cameras: seq<Camera>, t: Option<Pending>, event: Event)
    requires Announced(s, life, camera)
    requires t == TransitionOf(camera, s.Before(camera), checked)
    requires camera in after.cams && after.cams[camera] == AfterCheck(s.Before(camera), checked)
    requires Entry(after.suppressed, camera) == EntryAfter(s.suppressed, after.links.states, cameras, t, camera)
    requires EmitFor(after.cams, s.suppressed, after.links.states, cameras, t, camera) == [event]
    ensures event.CameraEvent? && event.cameraId == camera
            && event.status == after.cams[camera].memory.status != UNKNOWN
    ensures Failing(event.status) ==> event.siteOutage == Entry(after.suppressed, camera)
    ensures life != [] ==> !Repeats(life[|life| - 1], event)
    ensures forall i :: 0 <= i < |life| ==> life[i].CameraEvent? && life[i].cameraId == camera
  {
  }

  lemma LifeSnoc(after: HealthState, life: seq<Event>, event: Event, camera: CameraId)
    requires NoRepeat(life) && camera in after.cams
    requires forall i :: 0 <= i < |life| ==> life[i].CameraEvent? && life[i].cameraId == camera
    requires event.CameraEvent? && event.cameraId == camera
            && event.status == after.cams[camera].memory.status != UNKNOWN
    requires Failing(event.status) ==> event.siteOutage == Entry(after.suppressed, camera)
    requires life != [] ==> !Repeats(life[|life| - 1], event)
    ensures Announced(after, life + [event], camera) && NoRepeat(life + [event])
  {
    hide Entry, Repeats;
    var longer := life + [event];
    assert forall i :: 0 <= i < |life| ==> longer[i] == life[i];
  }

  /** After any run the ledger is sound and every camera's last event is current and not repeated. */
  lemma {:induction false} LedgerOverRuns(run: seq<HealthStep>, siteOf: CameraId -> Option<SiteId>)
    requires FixedSites(run, siteOf)
    ensures LedgerSound(Health(run), siteOf)
    ensures Health(run).links.Valid()
    ensures forall c :: Announced(Health(run), Life(run, c), c) && NoRepeat(Life(run, c))
  {
    if run == [] {
    } else {
      var before, step := run[..|run| - 1], run[|run| - 1];
      LedgerOverRuns(before, siteOf);
      assert run[|run| - 1] == step;
      LedgerStep(Health(before), step, siteOf);
      if step.Polled? {
        var samples := Samples(step.cycle.cameras, CamsAfter(Health(before), step.cycle));
        NextLinksValid(Health(before).links, samples, step.cycle.now);
      }
      forall c
        ensures Announced(Health(run), Life(run, c), c) && NoRepeat(Life(run, c))
      {
        AnnouncedStep(Health(before), step, Life(before, c), c);
      }
    }
  }

  // ---------------------------------------------------------------------
  // Site announcements
  // ---------------------------------------------------------------------

  lemma {:induction false} AboutPartition(transitions: seq<SiteTransition>, siteId: SiteId)
    ensures About(Offlines(transitions), siteId) == Offlines(About(transitions, siteId))
    ensures About(Onlines(transitions), siteId) == Onlines(About(transitions, siteId))
  {
    if transitions == [] {
    } else {
      var init, last := transitions[..|transitions| - 1], transitions[|transitions| - 1];
      AboutPartition(init, siteId);
      SnocViews(Offlines(init), last, siteId);
      SnocViews(Onlines(init), last, siteId);
      SnocViews(About(init, siteId), last, siteId);
    }
  }

  lemma SnocViews(transitions: seq<SiteTransition>, last: SiteTransition, siteId: SiteId)
    ensures About(transitions + [last], siteId) == About(transitions, siteId)
        + (if last.siteId == siteId then [last] else [])
    ensures Offlines(transitions + [last]) == Offlines(transitions) + (if last.SiteOffline? then [last] else [])
    ensures Onlines(transitions + [last]) == Onlines(transitions) + (if last.SiteOnline? then [last] else [])
  {
    assert (transitions + [last])[..|transitions|] == transitions;
  }

  /** What one cycle announces about one site, in terms of that site alone. */
  lemma CycleAnnouncesSite(s: HealthState, cycle: Cycle, siteId: SiteId)
    ensures var group := Group(Samples(cycle.cameras, CamsAfter(s, cycle)), siteId);
            About(CycleAnnouncements(s, cycle), siteId)
            == if group == [] then []
               else Announce(siteId, LinkOf(s.links.states, siteId), s.links.Since(siteId), group, cycle.now)
  {
    var samples := Samples(cycle.cameras, CamsAfter(s, cycle));
    var transitions := Announcements(s.links, SiteOrder(samples), samples, cycle.now);
    SiteOrderDistinct(samples);
    SiteOrderMember(samples, siteId);
    AnnouncementsAboutSite(s.links, SiteOrder(samples), samples, cycle.now, siteId);
    AboutConcat(Offlines(transitions), Onlines(transitions), siteId);
    AboutPartition(transitions, siteId);
    hide Samples, CamsAfter, Announcements, SiteOrder, Group, About, Offlines, Onlines, LinkOf;
    OneAnnouncement(siteId, LinkOf(s.links.states, siteId), s.links.Since(siteId), Group(samples, siteId), cycle.now);
    hide Announce;
    OutageOrRecovery(About(transitions, siteId));
  }

  lemma OneAnnouncement(
    siteId: SiteId, previous: LinkState, since: Option<int>, group: seq<SiteSample>, now: int)
    ensures |Announce(siteId, previous, since, group, now)| <= 1
  {
  }

  /** Of one announcement at most, outages and recoveries make the whole. */
  lemma OutageOrRecovery(mine: seq<SiteTransition>)
    requires |mine| <= 1
    ensures Offlines(mine) + Onlines(mine) == mine
  {
    if mine == [] {
    } else {
      assert mine == [mine[0]];
      SnocViews([], mine[0], "");
      assert [] + [mine[0]] == mine;
      hide Offlines, Onlines;
      NoViews();
    }
  }

  lemma NoViews()
    ensures Offlines([]) == [] && Onlines([]) == []
  {
  }

  /** While a site is down, the last thing announced about it is its outage. */
  lemma {:induction false} DownSiteWasAnnounced(run: seq<HealthStep>, siteId: SiteId)
    ensures LinkOf(Health(run).links.states, siteId) == DOWN ==>
              SiteLog(run, siteId) != [] && SiteLog(run, siteId)[|SiteLog(run, siteId)| - 1].SiteOffline?
  {
    if run == [] {
    } else {
      var before, step := run[..|run| - 1], run[|run| - 1];
      DownSiteWasAnnounced(before, siteId);
      if step.Polled? {
        CycleAnnouncesSite(Health(before), step.cycle, siteId);
        SiteOrderMember(Samples(step.cycle.cameras, CamsAfter(Health(before), step.cycle)), siteId);
        hide Samples, CamsAfter, CycleAnnouncements, SiteOrder, Group;
      }
    }
  }

  ghost predicate LastWordIsOutage(log: seq<SiteTransition>, siteId: SiteId) {
    log != [] && AlertFor(SiteEvent(log[|log| - 1])) == Some(SiteAlert("site.offline", siteId))
  }

  /** No alert lost: after any run, a failing camera has had an alert of its own saying its present status,
    * or its site's link is suspected, or the site is down and the last word on the site is its outage alert. */
  lemma NoAlertLost(run: seq<HealthStep>, siteOf: CameraId -> Option<SiteId>, camera: CameraId)
    requires FixedSites(run, siteOf)
    requires camera in Health(run).cams && Health(run).cams[camera].memory.status in {OFFLINE, DEGRADED}
    ensures var life := Life(run, camera);
            && life != []
            && life[|life| - 1].CameraEvent?
            && life[|life| - 1].status == Health(run).cams[camera].memory.status
            && (AlertFor(life[|life| - 1]).None? <==> camera in Health(run).suppressed)
    ensures camera in Health(run).suppressed ==>
              && siteOf(camera).Some?
              && var site := siteOf(camera).value;
                 || LinkOf(Health(run).links.states, site) == SUSPECTED
                 || (LinkOf(Health(run).links.states, site) == DOWN && LastWordIsOutage(SiteLog(run, site), site))
  {
    hide Health, Life, SiteLog, FixedSites;
    LedgerOverRuns(run, siteOf);
    assert Announced(Health(run), Life(run, camera), camera);
    if camera in Health(run).suppressed {
      var site := siteOf(camera).value;
      DownSiteWasAnnounced(run, site);
      SiteLogIsAbout(run, site);
    }
  }

  lemma {:induction false} SiteLogIsAbout(run: seq<HealthStep>, siteId: SiteId)
    ensures forall i :: 0 <= i < |SiteLog(run, siteId)| ==> SiteLog(run, siteId)[i].siteId == siteId
  {
    if run == [] {
    } else {
      var before, step := run[..|run| - 1], run[|run| - 1];
      SiteLogIsAbout(before, siteId);
      if step.Polled? {
        CycleAnnouncesSite(Health(before), step.cycle, siteId);
      }
    }
  }

  lemma CycleSuppressesFailures(s: HealthState, cycle: Cycle, camera: CameraId)
    ensures forall i :: 0 <= i < |CycleEvents(s, cycle, camera)| ==>
                          var event := CycleEvents(s, cycle, camera)[i];
                          event.CameraEvent? && (event.siteOutage.Some? ==> event.status in {OFFLINE, DEGRADED})
  {
    hide CamsAfter, Pruned, LinksAfter, PendingAfter;
  }

  /** Over any run only failures are suppressed: a camera that comes back is always announced. */
  lemma {:induction false} RecoveriesAreAnnounced(run: seq<HealthStep>, camera: CameraId)
    ensures forall i :: 0 <= i < |Life(run, camera)| ==>
                          var event := Life(run, camera)[i];
                          && event.CameraEvent? && event.cameraId == camera
                          && (event.status == ONLINE ==> AlertFor(event) == Some(CameraAlert("camera.online", camera)))
  {
    if run == [] {
    } else {
      var before, step := run[..|run| - 1], run[|run| - 1];
      RecoveriesAreAnnounced(before, camera);
      if step.Polled? {
        CycleSuppressesFailures(Health(before), step.cycle, camera);
        EventsOfCamera(Health(before), step.cycle, camera);
      }
      hide CycleEvents;
    }
  }

  lemma EventsOfCamera(s: HealthState, cycle: Cycle, camera: CameraId)
    ensures forall i :: 0 <= i < |CycleEvents(s, cycle, camera)| ==>
                          CycleEvents(s, cycle, camera)[i].CameraEvent?
                          && CycleEvents(s, cycle, camera)[i].cameraId == camera
  {
    hide CamsAfter, Pruned, LinksAfter, ActiveIds;
  }

  // ---------------------------------------------------------------------
  // Which channels hear of it
  // ---------------------------------------------------------------------

  /** A channel hears of the camera's failure by the camera's own alert or by the site's last one. */
  predicate Hears(configured: set<string>, life: seq<Event>, log: seq<SiteTransition>) {
    || (life != [] && AlertFor(life[|life| - 1]).Some? && ChannelWantsEvent(configured, EventType(life[|life| - 1])))
    || (log != [] && ChannelWantsEvent(configured, EventType(SiteEvent(log[|log| - 1]))))
  }

  /** A failing camera whose alert is suppressed while its site is down reaches every channel that asked for the
    * camera's event, except those that asked for degraded cameras but neither for offline cameras nor for offline
    * sites: for these the site alert replaces nothing, and the alert is lost. */
  lemma ChannelHearsIff(
    run: seq<HealthStep>, siteOf: CameraId -> Option<SiteId>, camera: CameraId, configured: set<string>)
    requires FixedSites(run, siteOf)
    requires camera in Health(run).cams && Health(run).cams[camera].memory.status in {OFFLINE, DEGRADED}
    requires camera in Health(run).suppressed && siteOf(camera).Some?
    requires LinkOf(Health(run).links.states, siteOf(camera).value) == DOWN
    requires Life(run, camera) != [] ==>
               ChannelWantsEvent(configured, EventType(Life(run, camera)[|Life(run, camera)| - 1]))
    ensures Hears(configured, Life(run, camera), SiteLog(run, siteOf(camera).value)) <==>
              || Health(run).cams[camera].memory.status == OFFLINE
              || "camera.offline" in configured || "site.offline" in configured
  {
    hide Health, Life, SiteLog, FixedSites;
    NoAlertLost(run, siteOf, camera);
    var life := Life(run, camera);
    assert EventType(life[|life| - 1]) in {"camera.offline", "camera.degraded"};
  }

  // ---------------------------------------------------------------------
  // When site alerts alternate
  // ---------------------------------------------------------------------

  predicate Alternates(log: seq<SiteTransition>) {
    && (log != [] ==> log[0].SiteOffline?)
    && forall i, next :: 0 <= i < |log| - 1 && next == i + 1 ==> log[i].SiteOffline? != log[next].SiteOffline?
  }

  predicate EndsOffline(log: seq<SiteTransition>) {
    log != [] && log[|log| - 1].SiteOffline?
  }

  lemma AlternatesSnoc(log: seq<SiteTransition>, last: SiteTransition)
    ensures Alternates(log + [last]) <==> Alternates(log) && (last.SiteOffline? <==> !EndsOffline(log))
  {
    var longer := log + [last];
    if Alternates(longer) {
      forall i, next | 0 <= i < |log| - 1 && next == i + 1
        ensures log[i].SiteOffline? != log[next].SiteOffline?
      {
        assert longer[i] == log[i] && longer[next] == log[next];
      }
      assert log != [] ==> longer[0] == log[0];
      if log != [] {
        var i, next := |log| - 1, |log|;
        assert longer[i] == log[i] && longer[next] == last;
      }
    }
  }

  /** The site's network-checked cameras in step `i` of the run. */
  function GroupAt(run: seq<HealthStep>, i: nat, siteId: SiteId): seq<SiteSample>
    requires i < |run| && run[i].Polled?
  {
    Group(Samples(run[i].cycle.cameras, CamsAfter(Health(run[..i]), run[i].cycle)), siteId)
  }

  /** Step `i` finds the site down and none of its cameras checked any more: the detector forgets the site
    * without announcing that it is back. */
  predicate DroppedWhileDown(run: seq<HealthStep>, i: nat, siteId: SiteId)
    requires i < |run|
  {
    && run[i].Polled?
    && LinkOf(Health(run[..i]).links.states, siteId) == DOWN
    && GroupAt(run, i, siteId) == []
  }

  /** Step `i` finds every checked camera of the site offline, and at least two of them. */
  predicate OutageAt(run: seq<HealthStep>, i: nat, siteId: SiteId)
    requires i < |run|
  {
    run[i].Polled? && AllOffline(GroupAt(run, i, siteId))
  }

  ghost predicate NoOutageAfter(run: seq<HealthStep>, i: nat, siteId: SiteId) {
    forall j :: i < j < |run| ==> !OutageAt(run, j, siteId)
  }

  /** Some drop of the site has not been followed by an outage yet. */
  ghost predicate AwaitsOutage(run: seq<HealthStep>, siteId: SiteId) {
    exists i: nat :: i < |run| && DroppedWhileDown(run, i, siteId) && NoOutageAfter(run, i, siteId)
  }

  /** No drop of the site is ever followed by an outage. */
  ghost predicate NoOutageAfterDrop(run: seq<HealthStep>, siteId: SiteId) {
    forall i: nat :: i < |run| && DroppedWhileDown(run, i, siteId) ==> NoOutageAfter(run, i, siteId)
  }

  /** What the last step of a run does to a site's link and log. */
  lemma LastStep(run: seq<HealthStep>, siteId: SiteId)
    requires run != []
    ensures var before, last := run[..|run| - 1], |run| - 1;
            var was, now := LinkOf(Health(before).links.states, siteId), LinkOf(Health(run).links.states, siteId);
            var log := SiteLog(before, siteId);
            && (was != DOWN ==> (OutageAt(run, last, siteId) <==> now == DOWN))
            && (DroppedWhileDown(run, last, siteId) ==> was == DOWN && now != DOWN && !OutageAt(run, last, siteId))
            && if (was == DOWN) == (now == DOWN) || DroppedWhileDown(run, last, siteId) then SiteLog(run, siteId) == log
               else
                 && |SiteLog(run, siteId)| == |log| + 1 && SiteLog(run, siteId)[..|log|] == log
                 && (SiteLog(run, siteId)[|log|].SiteOffline? <==> now == DOWN)
  {
    hide Samples, CamsAfter, CycleAnnouncements;
    var before, step := run[..|run| - 1], run[|run| - 1];
    if step.Polled? {
      CycleAnnouncesSite(Health(before), step.cycle, siteId);
      SiteOrderMember(Samples(step.cycle.cameras, CamsAfter(Health(before), step.cycle)), siteId);
    }
  }

  /** Earlier drops and outages are seen alike from a longer run. */
  lemma SeenAlike(run: seq<HealthStep>, i: nat, siteId: SiteId)
    requires i + 1 < |run|
    ensures var before := run[..|run| - 1];
            && (DroppedWhileDown(run, i, siteId) <==> DroppedWhileDown(before, i, siteId))
            && (OutageAt(run, i, siteId) <==> OutageAt(before, i, siteId))
  {
    assert run[..|run| - 1][..i] == run[..i];
  }

  lemma OutageComesLast(run: seq<HealthStep>, i: nat, siteId: SiteId)
    requires i + 1 < |run|
    ensures var before, last := run[..|run| - 1], |run| - 1;
            NoOutageAfter(run, i, siteId) <==> NoOutageAfter(before, i, siteId) && !OutageAt(run, last, siteId)
  {
    hide OutageAt;
    var before, last := run[..|run| - 1], |run| - 1;
    forall j | i < j < last
      ensures OutageAt(run, j, siteId) <==> OutageAt(before, j, siteId)
    {
      SeenAlike(run, j, siteId);
    }
  }

  /** A drop awaits an outage after a step if it did before and the step brings none, or if it is this step's own. */
  lemma AwaitsOutageStep(run: seq<HealthStep>, siteId: SiteId)
    requires run != []
    ensures var before, last := run[..|run| - 1], |run| - 1;
            AwaitsOutage(run, siteId) <==>
              || DroppedWhileDown(run, last, siteId)
              || (AwaitsOutage(before, siteId) && !OutageAt(run, last, siteId))
  {
    hide OutageAt, DroppedWhileDown, NoOutageAfter;
    var before, last := run[..|run| - 1], |run| - 1;
    forall i: nat | i < last
      ensures DroppedWhileDown(run, i, siteId) <==> DroppedWhileDown(before, i, siteId)
      ensures NoOutageAfter(run, i, siteId) <==> NoOutageAfter(before, i, siteId) && !OutageAt(run, last, siteId)
    {
      SeenAlike(run, i, siteId);
      OutageComesLast(run, i, siteId);
    }
    assert NoOutageAfter(run, last, siteId) by { NothingComesLater(run, siteId); }
  }

  lemma NothingComesLater(run: seq<HealthStep>, siteId: SiteId)
    requires run != []
    ensures NoOutageAfter(run, |run| - 1, siteId)
  {
  }

  /** An outage in the last step spoils the run if some drop was still waiting for it. */
  lemma NoOutageAfterDropStep(run: seq<HealthStep>, siteId: SiteId)
    requires run != []
    ensures var before, last := run[..|run| - 1], |run| - 1;
            NoOutageAfterDrop(run, siteId) <==>
              NoOutageAfterDrop(before, siteId) && !(OutageAt(run, last, siteId) && AwaitsOutage(before, siteId))
  {
    hide OutageAt, DroppedWhileDown, NoOutageAfter;
    var before, last := run[..|run| - 1], |run| - 1;
    forall i: nat | i < last
      ensures DroppedWhileDown(run, i, siteId) <==> DroppedWhileDown(before, i, siteId)
      ensures NoOutageAfter(run, i, siteId) <==> NoOutageAfter(before, i, siteId) && !OutageAt(run, last, siteId)
    {
      SeenAlike(run, i, siteId);
      OutageComesLast(run, i, siteId);
    }
    NothingComesLater(run, siteId);
  }

  lemma NothingLogged(siteId: SiteId)
    ensures SiteLog([], siteId) == [] && LinkOf(Health([]).links.states, siteId) == UP
  {
  }

  /** The log ends in an outage either because the site is down or because it was dropped while it was. */
  lemma {:induction false} EndsOfflineMeans(run: seq<HealthStep>, siteId: SiteId)
    ensures LinkOf(Health(run).links.states, siteId) == DOWN ==>
              EndsOffline(SiteLog(run, siteId)) && !AwaitsOutage(run, siteId)
    ensures LinkOf(Health(run).links.states, siteId) != DOWN ==>
              (EndsOffline(SiteLog(run, siteId)) <==> AwaitsOutage(run, siteId))
  {
    hide Health, SiteLog, DroppedWhileDown, OutageAt, NoOutageAfter;
    if run == [] {
      NothingLogged(siteId);
    } else {
      EndsOfflineMeans(run[..|run| - 1], siteId);
      LastStep(run, siteId);
      AwaitsOutageStep(run, siteId);
    }
  }

  /** Over any run, the announcements about a site alternate between offline and online, offline first, if and only if
    * no poll finds all its checked cameras offline after one that found it down and none of its cameras checked. */
  lemma SiteLogAlternatesIff(run: seq<HealthStep>, siteId: SiteId)
    ensures Alternates(SiteLog(run, siteId)) <==>
            forall i: nat, j: nat :: i < j < |run| && DroppedWhileDown(run, i, siteId) ==> !OutageAt(run, j, siteId)
  {
    hide Health, SiteLog, DroppedWhileDown, OutageAt, Alternates;
    AlternatesByDrops(run, siteId);
  }

  lemma {:induction false} AlternatesByDrops(run: seq<HealthStep>, siteId: SiteId)
    ensures Alternates(SiteLog(run, siteId)) <==> NoOutageAfterDrop(run, siteId)
  {
    hide Health, SiteLog, DroppedWhileDown, OutageAt, NoOutageAfter, Alternates;
    if run == [] {
      NothingLogged(siteId);
      NothingAlternates();
    } else {
      var before := run[..|run| - 1];
      AlternatesByDrops(before, siteId);
      EndsOfflineMeans(before, siteId);
      LastStep(run, siteId);
      NoOutageAfterDropStep(run, siteId);
      var log := SiteLog(before, siteId);
      if SiteLog(run, siteId) != log {
        AlternatesSnoc(log, SiteLog(run, siteId)[|log|]);
        assert SiteLog(run, siteId) == log + [SiteLog(run, siteId)[|log|]];
      }
    }
  }

  lemma NothingAlternates()
    ensures Alternates([])
  {
  }
}
