/** The camera health poller (src/health/camera-health.service.ts): which events a poll
  * cycle puts on the bus, and the ledger of alerts attributed to a site outage. */
module CameraHealth {
  import opened Options
  import opened CameraStatus
  import opened SiteOutage
  import opened AlertPolicy

  datatype Camera = Camera(id: CameraId, siteId: Option<SiteId>)

  /** What the service remembers of a camera, as far as events depend on it. */
  datatype CameraState = CameraState(memory: StatusMemory, networkCheck: NetworkCheck)

  ghost predicate DistinctCameras(cameras: seq<Camera>) {
    forall i, j :: 0 <= i < j < |cameras| ==> cameras[i].id != cameras[j].id
  }

  const INITIAL_STATE := CameraState(INITIAL_STATUS, NOT_APPLICABLE)

  datatype Pending = Pending(
    cameraId: CameraId,
    newStatus: HealthStatus,
    previousStatus: HealthStatus,
    outageDurationMs: Option<int>)

  /** One poll: the cameras listed, the checks that completed (a camera without an entry had its
    * check throw), the cameras deleted while the checks ran, and the time of the site evaluation. */
  datatype Cycle = Cycle(
    cameras: seq<Camera>,
    checks: map<CameraId, Poll>,
    removed: set<CameraId>,
    now: int)
  {
    /** The camera service lists each camera once. */
    ghost predicate Valid() {
      DistinctCameras(cameras)
    }
  }

  /** The service's memory as a value. */
  datatype HealthState = HealthState(
    cams: map<CameraId, CameraState>,
    suppressed: map<CameraId, SiteId>,
    links: Links)
  {
    function Before(camera: CameraId): CameraState {
      if camera in cams then cams[camera] else INITIAL_STATE
    }
  }

  const INITIAL_HEALTH := HealthState(map[], map[], Links(map[], map[]))

  // ---------------------------------------------------------------------
  // One poll cycle, camera by camera
  // ---------------------------------------------------------------------

  function AfterCheck(state: CameraState, checked: Option<Poll>): CameraState {
    if checked.None? then state
    else CameraState(
           NextCameraStatus(state.memory, checked.value.sample, checked.value.at).memory,
           checked.value.sample.networkCheck)
  }

  /** The transition a check announces: none when the status stays or a camera comes up for the first time. */
  function TransitionOf(camera: CameraId, state: CameraState, checked: Option<Poll>): Option<Pending> {
    if checked.None? then None
    else
      var verdict := NextCameraStatus(state.memory, checked.value.sample, checked.value.at);
      var previous := state.memory.status;
      var next := verdict.memory.status;
      if next == previous || (previous == UNKNOWN && next == ONLINE) then None
      else Some(Pending(camera, next, previous, verdict.outageDurationMs))
  }

  function CheckOf(cycle: Cycle, camera: CameraId): Option<Poll> {
    if camera in cycle.checks then Some(cycle.checks[camera]) else None
  }

  function ActiveIds(cameras: seq<Camera>): set<CameraId> {
    set i | 0 <= i < |cameras| :: cameras[i].id
  }

  function CamsAfter(s: HealthState, cycle: Cycle): map<CameraId, CameraState> {
    map c | c in ActiveIds(cycle.cameras) && c !in cycle.removed :: AfterCheck(s.Before(c), CheckOf(cycle, c))
  }

  function PendingAfter(s: HealthState, cycle: Cycle, camera: CameraId): Option<Pending> {
    if camera in ActiveIds(cycle.cameras) then TransitionOf(camera, s.Before(camera), CheckOf(cycle, camera)) else None
  }

  /** The samples handed to the site detector: every listed camera the service still knows. */
  function Samples(cameras: seq<Camera>, cams: map<CameraId, CameraState>): seq<SiteSample> {
    if cameras == [] then []
    else
      var rest := Samples(cameras[..|cameras| - 1], cams);
      var camera := cameras[|cameras| - 1];
      if camera.id !in cams then rest
      else
        var state := cams[camera.id];
        rest + [SiteSample(camera.id, camera.siteId, state.memory.status,
                           state.networkCheck != NOT_APPLICABLE, state.networkCheck == FAILED)]
  }

  function LinksAfter(s: HealthState, cycle: Cycle): Links {
    NextLinks(s.links, Samples(cycle.cameras, CamsAfter(s, cycle)), cycle.now)
  }

  function SiteOf(cameras: seq<Camera>, camera: CameraId): Option<SiteId> {
    if cameras == [] then None
    else if cameras[|cameras| - 1].id == camera then cameras[|cameras| - 1].siteId
    else SiteOf(cameras[..|cameras| - 1], camera)
  }

  /** The site an event is attributed to: the camera's site, when the event is a failure and its link is not up. */
  function Attribution(cameras: seq<Camera>, states: map<SiteId, LinkState>, t: Pending): Option<SiteId> {
    var site := SiteOf(cameras, t.cameraId);
    if Failing(t.newStatus) && RealSite(site) && LinkOf(states, site.value) != UP then site else None
  }

  function TransitionEvent(t: Pending, attribution: Option<SiteId>): Event {
    CameraEvent(t.cameraId, t.newStatus, t.previousStatus, t.outageDurationMs, attribution)
  }

  /** The late alert of a camera whose suspected site outage cleared while it still fails. */
  function LateAlert(
    cams: map<CameraId, CameraState>, suppressed: map<CameraId, SiteId>, states: map<SiteId, LinkState>,
    camera: CameraId)
    : seq<Event>
  {
    if && camera in suppressed && LinkOf(states, suppressed[camera]) == UP
       && camera in cams && Failing(cams[camera].memory.status)
    then
      var status := cams[camera].memory.status;
      [CameraEvent(camera, status, status, None, None)]
    else []
  }

  /** Everything the end of a cycle emits about one camera, given its own pending transition. */
  function EmitFor(
    cams: map<CameraId, CameraState>, suppressed: map<CameraId, SiteId>, states: map<SiteId, LinkState>,
    cameras: seq<Camera>, pending: Option<Pending>, camera: CameraId)
    : seq<Event>
  {
    if pending.Some? then [TransitionEvent(pending.value, Attribution(cameras, states, pending.value))]
    else LateAlert(cams, suppressed, states, camera)
  }

  function Entry(suppressed: map<CameraId, SiteId>, camera: CameraId): Option<SiteId> {
    if camera in suppressed then Some(suppressed[camera]) else None
  }

  /** The ledger entry of a camera once its suspected outage has been looked at again. */
  function StillSuppressed(
    suppressed: map<CameraId, SiteId>, states: map<SiteId, LinkState>, camera: CameraId): Option<SiteId>
  {
    if camera in suppressed && LinkOf(states, suppressed[camera]) != UP then Some(suppressed[camera]) else None
  }

  function EntryAfter(
    suppressed: map<CameraId, SiteId>, states: map<SiteId, LinkState>,
    cameras: seq<Camera>, pending: Option<Pending>, camera: CameraId)
    : Option<SiteId>
  {
    if pending.Some? then Attribution(cameras, states, pending.value)
    else StillSuppressed(suppressed, states, camera)
  }

  function Pruned(s: HealthState, cycle: Cycle): map<CameraId, SiteId> {
    map c | c in s.suppressed && c in ActiveIds(cycle.cameras) :: s.suppressed[c]
  }

  function SuppressedAfter(s: HealthState, cycle: Cycle): map<CameraId, SiteId> {
    var states := LinksAfter(s, cycle).states;
    map c | c in s.suppressed.Keys + ActiveIds(cycle.cameras)
            && EntryAfter(Pruned(s, cycle), states, cycle.cameras, PendingAfter(s, cycle, c), c).Some?
          :: EntryAfter(Pruned(s, cycle), states, cycle.cameras, PendingAfter(s, cycle, c), c).value
  }

  lemma PrunedMeans(s: HealthState, cycle: Cycle)
    ensures Pruned(s, cycle) == map c | c in s.suppressed && c in ActiveIds(cycle.cameras) :: s.suppressed[c]
  {
  }

  lemma CamsAfterMeans(s: HealthState, cycle: Cycle, cams: map<CameraId, CameraState>)
    requires cams == map c | c in ActiveIds(cycle.cameras) :: AfterCheck(s.Before(c), CheckOf(cycle, c))
    ensures CamsAfter(s, cycle) == map c | c in cams && c !in cycle.removed :: cams[c]
  {
  }

  lemma SuppressedIs(s: HealthState, cycle: Cycle, suppressed: map<CameraId, SiteId>)
    requires forall c ::
               Entry(suppressed, c)
               == EntryAfter(Pruned(s, cycle), LinksAfter(s, cycle).states, cycle.cameras, PendingAfter(s, cycle, c), c)
    ensures suppressed == SuppressedAfter(s, cycle)
  {
    hide Entry, SuppressedAfter, EntryAfter;
    forall c
      ensures Entry(suppressed, c) == Entry(SuppressedAfter(s, cycle), c)
    {
      SuppressedAfterMeans(s, cycle, c);
    }
    SameEntries(suppressed, SuppressedAfter(s, cycle));
  }

  lemma SuppressedAfterMeans(s: HealthState, cycle: Cycle, c: CameraId)
    ensures Entry(SuppressedAfter(s, cycle), c)
         == EntryAfter(Pruned(s, cycle), LinksAfter(s, cycle).states, cycle.cameras, PendingAfter(s, cycle, c), c)
  {
    hide LinksAfter, Attribution, TransitionOf, ActiveIds;
    if c !in s.suppressed.Keys + ActiveIds(cycle.cameras) {
      assert PendingAfter(s, cycle, c).None?;
    }
  }

  lemma SameEntries(a: map<CameraId, SiteId>, b: map<CameraId, SiteId>)
    requires forall c :: Entry(a, c) == Entry(b, c)
    ensures a == b
  {
    assert forall c :: c in a <==> Entry(a, c).Some?;
    assert forall c :: c in b <==> Entry(b, c).Some?;
    assert forall c :: c in a ==> a[c] == Entry(a, c).value;
    assert forall c :: c in b ==> b[c] == Entry(b, c).value;
  }

  function NextHealth(s: HealthState, cycle: Cycle): HealthState {
    HealthState(CamsAfter(s, cycle), SuppressedAfter(s, cycle), LinksAfter(s, cycle))
  }

  /** The camera events of one poll cycle, seen from one camera. */
  function CycleEvents(s: HealthState, cycle: Cycle, camera: CameraId): seq<Event> {
    EmitFor(CamsAfter(s, cycle), Pruned(s, cycle), LinksAfter(s, cycle).states, cycle.cameras,
            PendingAfter(s, cycle, camera), camera)
  }

  /** The site announcements of one poll cycle: outages first, recoveries last. */
  function CycleAnnouncements(s: HealthState, cycle: Cycle): seq<SiteTransition> {
    var samples := Samples(cycle.cameras, CamsAfter(s, cycle));
    var transitions := Announcements(s.links, SiteOrder(samples), samples, cycle.now);
    Offlines(transitions) + Onlines(transitions)
  }

  function Offlines(transitions: seq<SiteTransition>): seq<SiteTransition> {
    if transitions == [] then []
    else
      var rest := Offlines(transitions[..|transitions| - 1]);
      var last := transitions[|transitions| - 1];
      if last.SiteOffline? then rest + [last] else rest
  }

  function Onlines(transitions: seq<SiteTransition>): seq<SiteTransition> {
    if transitions == [] then []
    else
      var rest := Onlines(transitions[..|transitions| - 1]);
      var last := transitions[|transitions| - 1];
      if last.SiteOnline? then rest + [last] else rest
  }

  // ---------------------------------------------------------------------
  // Re-examining the ledger, entry by entry
  // ---------------------------------------------------------------------

  /** The entries of `ledger` not in `todo` have been looked at again, and their late alerts sent. */
  ghost predicate Reexamined(
    cams: map<CameraId, CameraState>, states: map<SiteId, LinkState>, pendingIds: set<CameraId>, todo: set<CameraId>,
    ledger: map<CameraId, SiteId>, events: seq<Event>, ledger': map<CameraId, SiteId>, events': seq<Event>)
  {
    && (forall c :: Entry(ledger', c) == if c in todo then Entry(ledger, c) else StillSuppressed(ledger, states, c))
    && (forall c ::
          ByCamera(events', c)
          == ByCamera(events, c)
             + (if c in todo || c in pendingIds then [] else LateAlert(cams, ledger, states, c)))
    && SiteAnnouncements(events') == SiteAnnouncements(events)
  }

  lemma NothingReexamined(
    cams: map<CameraId, CameraState>, states: map<SiteId, LinkState>, pendingIds: set<CameraId>,
    ledger: map<CameraId, SiteId>, events: seq<Event>)
    ensures Reexamined(cams, states, pendingIds, ledger.Keys, ledger, events, ledger, events)
  {
    hide ByCamera, SiteAnnouncements;
  }

  lemma OneMoreReexamined(
    cams: map<CameraId, CameraState>, states: map<SiteId, LinkState>, pendingIds: set<CameraId>, todo: set<CameraId>,
    ledger: map<CameraId, SiteId>, events: seq<Event>, ledger1: map<CameraId, SiteId>, events1: seq<Event>,
    ledger2: map<CameraId, SiteId>, events2: seq<Event>, camera: CameraId)
    requires Reexamined(cams, states, pendingIds, todo, ledger, events, ledger1, events1) && camera in todo
    requires forall c ::
               Entry(ledger2, c) == if c == camera then StillSuppressed(ledger1, states, c) else Entry(ledger1, c)
    requires forall c ::
               ByCamera(events2, c)
               == ByCamera(events1, c)
                  + (if c != camera || c in pendingIds then [] else LateAlert(cams, ledger1, states, c))
    requires SiteAnnouncements(events2) == SiteAnnouncements(events1)
    ensures Reexamined(cams, states, pendingIds, todo - {camera}, ledger, events, ledger2, events2)
  {
    hide ByCamera, SiteAnnouncements, Entry, StillSuppressed, LateAlert;
    SameEntry(cams, states, ledger, ledger1, camera);
    forall c
      ensures Entry(ledger2, c)
           == if c in todo - {camera} then Entry(ledger, c) else StillSuppressed(ledger, states, c)
      ensures ByCamera(events2, c)
           == ByCamera(events, c)
              + (if c in todo - {camera} || c in pendingIds then [] else LateAlert(cams, ledger, states, c))
    {
      if c == camera {
        assert ByCamera(events1, c) == ByCamera(events, c) + [];
      } else {
        assert ByCamera(events2, c) == ByCamera(events1, c) + [];
      }
    }
  }

  lemma SameEntry(
    cams: map<CameraId, CameraState>, states: map<SiteId, LinkState>, ledger: map<CameraId, SiteId>,
    ledger': map<CameraId, SiteId>, camera: CameraId)
    requires Entry(ledger', camera) == Entry(ledger, camera)
    ensures StillSuppressed(ledger', states, camera) == StillSuppressed(ledger, states, camera)
    ensures LateAlert(cams, ledger', states, camera) == LateAlert(cams, ledger, states, camera)
  {
  }

  lemma AllReexamined(
    cams: map<CameraId, CameraState>, states: map<SiteId, LinkState>, pendingIds: set<CameraId>,
    ledger: map<CameraId, SiteId>, events: seq<Event>, ledger': map<CameraId, SiteId>, events': seq<Event>)
    requires Reexamined(cams, states, pendingIds, {}, ledger, events, ledger', events')
    ensures forall c :: Entry(ledger', c) == StillSuppressed(ledger, states, c)
    ensures forall c ::
              ByCamera(events', c)
              == ByCamera(events, c) + (if c in pendingIds then [] else LateAlert(cams, ledger, states, c))
    ensures SiteAnnouncements(events') == SiteAnnouncements(events)
  {
  }

  // ---------------------------------------------------------------------
  // The service
  // ---------------------------------------------------------------------

  /** The pending transition of a camera: the last one buffered for it. */
  function FindPending(pending: seq<Pending>, camera: CameraId): Option<Pending> {
    if pending == [] then None
    else if pending[|pending| - 1].cameraId == camera then Some(pending[|pending| - 1])
    else FindPending(pending[..|pending| - 1], camera)
  }

  ghost predicate DistinctPending(pending: seq<Pending>) {
    forall i, j :: 0 <= i < j < |pending| ==> pending[i].cameraId != pending[j].cameraId
  }

  lemma NothingPending()
    ensures forall c :: FindPending([], c).None?
  {
  }

  lemma {:induction false} FindPendingMember(pending: seq<Pending>, camera: CameraId)
    ensures FindPending(pending, camera).None? <==> forall i :: 0 <= i < |pending| ==> pending[i].cameraId != camera
    ensures FindPending(pending, camera).Some? ==>
              FindPending(pending, camera).value.cameraId == camera
  {
    if pending == [] {
    } else {
      FindPendingMember(pending[..|pending| - 1], camera);
      var init := pending[..|pending| - 1];
      assert forall i :: 0 <= i < |init| ==> init[i] == pending[i];
    }
  }

  lemma FindPendingStep(pending: seq<Pending>, k: nat, camera: CameraId)
    requires k < |pending|
    ensures FindPending(pending[..k + 1], camera)
            == if pending[k].cameraId == camera then Some(pending[k]) else FindPending(pending[..k], camera)
  {
    assert pending[..k + 1][..k] == pending[..k];
  }

  lemma {:induction false} FindPendingPrefix(pending: seq<Pending>, k: nat, camera: CameraId)
    requires k < |pending| && DistinctPending(pending)
    requires pending[k].cameraId == camera
    ensures FindPending(pending, camera) == Some(pending[k]) && FindPending(pending[..k], camera).None?
  {
    FindPendingMember(pending[..k], camera);
    FindPendingStep(pending, k, camera);
    assert pending[..|pending|] == pending;
    for n := k + 1 to |pending|
      invariant FindPending(pending[..n], camera) == Some(pending[k])
    {
      FindPendingStep(pending, n, camera);
    }
  }

  /** Mid-checks: a camera among the first `i` listed has been checked, any other is as before. */
  ghost predicate CameraChecked(
    before: HealthState, cycle: Cycle, i: nat, cams: map<CameraId, CameraState>, pending: seq<Pending>, c: CameraId)
    requires i <= |cycle.cameras|
  {
    if c in ActiveIds(cycle.cameras[..i]) then
      && c in cams
      && cams[c] == AfterCheck(before.Before(c), CheckOf(cycle, c))
      && FindPending(pending, c) == PendingAfter(before, cycle, c)
    else
      && (c in cams <==> c in before.cams && c in ActiveIds(cycle.cameras))
      && (c in cams ==> cams[c] == before.cams[c])
      && FindPending(pending, c).None?
  }

  lemma ActiveIdsStep(cameras: seq<Camera>, i: nat)
    requires i < |cameras| && DistinctCameras(cameras)
    ensures ActiveIds(cameras[..i + 1]) == ActiveIds(cameras[..i]) + {cameras[i].id}
    ensures cameras[i].id !in ActiveIds(cameras[..i])
    ensures cameras[i].id in ActiveIds(cameras)
  {
    forall c
      ensures c in ActiveIds(cameras[..i + 1]) <==> c in ActiveIds(cameras[..i]) + {cameras[i].id}
    {
      if c in ActiveIds(cameras[..i]) {
        var j :| 0 <= j < i && cameras[..i][j].id == c;
        assert cameras[..i + 1][j].id == c;
      }
      if c == cameras[i].id {
        assert cameras[..i + 1][i].id == c;
      }
      if c in ActiveIds(cameras[..i + 1]) && c != cameras[i].id {
        var j :| 0 <= j < i + 1 && cameras[..i + 1][j].id == c;
        assert cameras[..i][j].id == c;
      }
    }
  }

  lemma CheckedStep(
    before: HealthState, cycle: Cycle, i: nat, next: nat,
    cams: map<CameraId, CameraState>, pending: seq<Pending>,
    cams': map<CameraId, CameraState>, pending': seq<Pending>)
    requires cycle.Valid() && i < |cycle.cameras| && next == i + 1
    requires DistinctPending(pending)
    requires forall c :: CameraChecked(before, cycle, i, cams, pending, c)
    requires var id := cycle.cameras[i].id;
             var state := if id in cams then cams[id] else INITIAL_STATE;
             var t := TransitionOf(id, state, CheckOf(cycle, id));
             && cams' == cams[id := AfterCheck(state, CheckOf(cycle, id))]
             && pending' == pending + (if t.Some? then [t.value] else [])
    ensures DistinctPending(pending')
    ensures forall c :: CameraChecked(before, cycle, next, cams', pending', c)
  {
    var id := cycle.cameras[i].id;
    ActiveIdsStep(cycle.cameras, i);
    assert CameraChecked(before, cycle, i, cams, pending, id);
    var t := TransitionOf(id, before.Before(id), CheckOf(cycle, id));
    FindPendingMember(pending, id);
    if t.Some? {
      assert pending'[..|pending|] == pending;
    }
    forall c
      ensures CameraChecked(before, cycle, next, cams', pending', c)
    {
      assert CameraChecked(before, cycle, i, cams, pending, c);
      if t.Some? {
        FindPendingStep(pending', |pending|, c);
        assert pending'[..|pending| + 1] == pending';
      } else {
        assert pending' == pending;
      }
    }
  }

  lemma AllChecked(
    before: HealthState, cycle: Cycle, n: nat, cams: map<CameraId, CameraState>, pending: seq<Pending>)
    requires n == |cycle.cameras|
    requires forall c :: CameraChecked(before, cycle, n, cams, pending, c)
    ensures cams == map c | c in ActiveIds(cycle.cameras) :: AfterCheck(before.Before(c), CheckOf(cycle, c))
    ensures forall c :: FindPending(pending, c) == PendingAfter(before, cycle, c)
  {
    assert cycle.cameras[..n] == cycle.cameras;
    forall c
      ensures c in cams <==> c in ActiveIds(cycle.cameras)
      ensures c in cams ==> cams[c] == AfterCheck(before.Before(c), CheckOf(cycle, c))
      ensures FindPending(pending, c) == PendingAfter(before, cycle, c)
    {
      assert CameraChecked(before, cycle, n, cams, pending, c);
    }
  }

  class CameraHealthService {
    var cameraStates: map<CameraId, CameraState>
    var siteSuppressed: map<CameraId, SiteId>
    var pendingTransitions: Option<seq<Pending>>
    var isPolling: bool
    const siteDetector: SiteOutageDetector
    /** What the service has put on the event bus. */
    var events: seq<Event>

    constructor ()
      ensures State() == INITIAL_HEALTH && Idle() && events == []
      ensures fresh(siteDetector)
    {
      siteDetector := new SiteOutageDetector();
      cameraStates, siteSuppressed, pendingTransitions, isPolling, events := map[], map[], None, false, [];
    }

    function State(): HealthState
      reads this, siteDetector
    {
      HealthState(cameraStates, siteSuppressed, siteDetector.Memory())
    }

    /** No cycle is running. */
    predicate Idle()
      reads this
    {
      !isPolling && pendingTransitions.None?
    }

    /** Inside a cycle the transition is buffered unless it has been decided; outside it goes straight to the bus. */
    method EmitTransitionEvent(t: Pending, decided: bool, siteOutage: Option<SiteId>)
      modifies this`pendingTransitions, this`events
      ensures !decided && old(pendingTransitions).Some? ==>
                pendingTransitions == Some(old(pendingTransitions).value + [t]) && events == old(events)
      ensures decided || old(pendingTransitions).None? ==>
                pendingTransitions == old(pendingTransitions) && events == old(events)
                    + [TransitionEvent(t, siteOutage)]
    {
      if pendingTransitions.Some? && !decided {
        pendingTransitions := Some(pendingTransitions.value + [t]);
        return;
      }
      events := events + [TransitionEvent(t, siteOutage)];
    }

    /** One camera's check; `checked` is absent when a probe threw before the status was computed. Its transition waits
      * for the end of the cycle, or, outside one, goes to the bus as the camera's own. */
    method CheckCamera(camera: Camera, checked: Option<Poll>)
      modifies this`cameraStates, this`pendingTransitions, this`events
      ensures cameraStates == old(cameraStates)[camera.id := AfterCheck(old(State()).Before(camera.id), checked)]
      ensures var t := TransitionOf(camera.id, old(State()).Before(camera.id), checked);
              if old(pendingTransitions).Some? then
                && pendingTransitions.Some?
                && pendingTransitions.value == old(pendingTransitions).value + (if t.Some? then [t.value] else [])
                && events == old(events)
              else
                && pendingTransitions.None?
                && events == old(events) + (if t.Some? then [TransitionEvent(t.value, None)] else [])
    {
      if camera.id !in cameraStates {
        cameraStates := cameraStates[camera.id := INITIAL_STATE];
      }
      if checked.None? {
        return;
      }
      var state := cameraStates[camera.id];
      var verdict := NextCameraStatus(state.memory, checked.value.sample, checked.value.at);
      var previousStatus := state.memory.status;
      var nextStatus := verdict.memory.status;
      cameraStates := cameraStates[camera.id := CameraState(verdict.memory, checked.value.sample.networkCheck)];
      if nextStatus != previousStatus {
        var isBootOnline := previousStatus == UNKNOWN && nextStatus == ONLINE;
        if !isBootOnline {
          EmitTransitionEvent(Pending(camera.id, nextStatus, previousStatus, verdict.outageDurationMs), false, None);
        }
      }
    }

    /** A deleted camera is forgotten at once. */
    method RemoveCamera(camera: CameraId)
      modifies this`cameraStates
      ensures cameraStates == old(cameraStates) - {camera}
    {
      cameraStates := cameraStates - {camera};
    }

    /** A whole poll cycle: its effect on memory and on the bus is that of `NextHealth` and its event functions. */
    method PollAllCameras(cycle: Cycle)
      requires siteDetector.Memory().Valid() && cycle.Valid()
      modifies this, siteDetector
      ensures old(isPolling) ==> State() == old(State()) && events == old(events) && isPolling
      ensures old(Idle()) ==> Idle() && State() == NextHealth(old(State()), cycle)
      ensures old(Idle()) ==>
                forall c :: ByCamera(events, c) == ByCamera(old(events), c) + CycleEvents(old(State()), cycle, c)
      ensures old(Idle()) ==>
                SiteAnnouncements(events) == SiteAnnouncements(old(events)) + CycleAnnouncements(old(State()), cycle)
      ensures siteDetector.Memory().Valid()
    {
      if isPolling {
        return;
      }
      isPolling := true;
      var pending := PruneAndCheck(cycle);
      FinishCycle(cycle.cameras, pending, cycle.now);
      isPolling := false;
      SuppressedIs(old(State()), cycle, siteSuppressed);
    }

    /** The first half of a cycle: forget cameras no longer listed, check the others, collect their transitions. */
    method PruneAndCheck(cycle: Cycle) returns (pending: seq<Pending>)
      requires cycle.Valid()
      modifies this`cameraStates, this`siteSuppressed, this`pendingTransitions, this`events
      ensures cameraStates == CamsAfter(old(State()), cycle)
      ensures siteSuppressed == Pruned(old(State()), cycle)
      ensures pendingTransitions.None? && events == old(events)
      ensures DistinctPending(pending)
      ensures forall c :: FindPending(pending, c) == PendingAfter(old(State()), cycle, c)
    {
      hide AfterCheck, CheckOf, TransitionOf, PendingAfter, CamsAfter, Pruned, FindPending, DistinctPending, ActiveIds;
      var activeIds := ActiveIds(cycle.cameras);
      PrunedMeans(old(State()), cycle);
      cameraStates := map c | c in cameraStates && c in activeIds :: cameraStates[c];
      siteSuppressed := map c | c in siteSuppressed && c in activeIds :: siteSuppressed[c];
      pendingTransitions := Some([]);
      RunChecks(cycle, old(State()));
      CamsAfterMeans(old(State()), cycle, cameraStates);
      cameraStates := map c | c in cameraStates && c !in cycle.removed :: cameraStates[c];
      pending := pendingTransitions.value;
      pendingTransitions := None;
    }

    method RunChecks(cycle: Cycle, ghost before: HealthState)
      requires cycle.Valid()
      requires pendingTransitions == Some([])
      requires cameraStates == map c | c in before.cams && c in ActiveIds(cycle.cameras) :: before.cams[c]
      modifies this`cameraStates, this`pendingTransitions, this`events
      ensures cameraStates == map c | c in ActiveIds(cycle.cameras) :: AfterCheck(before.Before(c), CheckOf(cycle, c))
      ensures pendingTransitions.Some? && DistinctPending(pendingTransitions.value)
      ensures forall c :: FindPending(pendingTransitions.value, c) == PendingAfter(before, cycle, c)
      ensures events == old(events)
    {
      for i := 0 to |cycle.cameras|
        invariant pendingTransitions.Some? && DistinctPending(pendingTransitions.value)
        invariant forall c :: CameraChecked(before, cycle, i, cameraStates, pendingTransitions.value, c)
        invariant events == old(events)
      {
        ghost var cams, pending := cameraStates, pendingTransitions.value;
        var camera := cycle.cameras[i];
        var check := if camera.id in cycle.checks then Some(cycle.checks[camera.id]) else None;
        CheckCamera(camera, check);
        CheckedStep(before, cycle, i, i + 1, cams, pending, cameraStates, pendingTransitions.value);
      }
      AllChecked(before, cycle, |cycle.cameras|, cameraStates, pendingTransitions.value);
    }

    method FinishCycle(cameras: seq<Camera>, pending: seq<Pending>, now: int)
      requires siteDetector.Memory().Valid() && DistinctPending(pending) && pendingTransitions.None?
      modifies this`siteSuppressed, this`events, this`pendingTransitions, siteDetector
      ensures pendingTransitions.None?
      ensures siteDetector.Memory() == NextLinks(old(siteDetector.Memory()), Samples(cameras, cameraStates), now)
      ensures siteDetector.Memory().Valid()
      ensures forall c ::
                Entry(siteSuppressed, c)
                == EntryAfter(old(siteSuppressed), siteDetector.states, cameras, FindPending(pending, c), c)
      ensures forall c ::
                ByCamera(events, c)
                == ByCamera(old(events), c)
                   + EmitFor(cameraStates, old(siteSuppressed), siteDetector.states, cameras,
                             FindPending(pending, c), c)
      ensures var samples := Samples(cameras, cameraStates);
              var transitions := Announcements(old(siteDetector.Memory()), SiteOrder(samples), samples, now);
              SiteAnnouncements(events)
                  == SiteAnnouncements(old(events)) + (Offlines(transitions) + Onlines(transitions))
    {
      var samples := SampleAll(cameras);
      var transitions := siteDetector.Evaluate(samples, now);
      EmitCycle(cameras, pending, transitions);
    }

    /** Announces outages, re-examines the ledger, emits the buffered transitions, announces recoveries. */
    method EmitCycle(cameras: seq<Camera>, pending: seq<Pending>, transitions: seq<SiteTransition>)
      requires DistinctPending(pending) && pendingTransitions.None?
      modifies this`siteSuppressed, this`events, this`pendingTransitions
      ensures pendingTransitions.None?
      ensures forall c ::
                Entry(siteSuppressed, c)
                == EntryAfter(old(siteSuppressed), siteDetector.states, cameras, FindPending(pending, c), c)
      ensures forall c ::
                ByCamera(events, c)
                == ByCamera(old(events), c)
                   + EmitFor(cameraStates, old(siteSuppressed), siteDetector.states, cameras,
                             FindPending(pending, c), c)
      ensures SiteAnnouncements(events)
          == SiteAnnouncements(old(events)) + (Offlines(transitions) + Onlines(transitions))
    {
      hide ByCamera, SiteAnnouncements, Offlines, Onlines, FindPending, LateAlert, Attribution, StillSuppressed;
      EmitSiteEvents(transitions, true);
      ghost var afterDown := events;
      ReexamineSuppressed(pending);
      ghost var afterLedger := events;
      EmitPending(cameras, pending);
      ghost var afterPending := events;
      EmitSiteEvents(transitions, false);
      forall c
        ensures ByCamera(events, c)
                == ByCamera(old(events), c)
                   + EmitFor(cameraStates, old(siteSuppressed), siteDetector.states, cameras,
                             FindPending(pending, c), c)
      {
        assert ByCamera(events, c) == ByCamera(afterPending, c);
        assert ByCamera(afterDown, c) == ByCamera(old(events), c);
        assert ByCamera(afterLedger, c)
            == ByCamera(afterDown, c)
               + (if FindPending(pending, c).Some? then []
                  else LateAlert(cameraStates, old(siteSuppressed), siteDetector.states, c));
      }
    }

    /** Announces the site outages, or the site recoveries, among the transitions. */
    method EmitSiteEvents(transitions: seq<SiteTransition>, offline: bool)
      modifies this`events
      ensures forall c :: ByCamera(events, c) == ByCamera(old(events), c)
      ensures SiteAnnouncements(events)
              == SiteAnnouncements(old(events)) + (if offline then Offlines(transitions) else Onlines(transitions))
    {
      for i := 0 to |transitions|
        invariant forall c :: ByCamera(events, c) == ByCamera(old(events), c)
        invariant SiteAnnouncements(events)
                  == SiteAnnouncements(old(events))
                     + (if offline then Offlines(transitions[..i]) else Onlines(transitions[..i]))
      {
        assert transitions[..i + 1][..i] == transitions[..i];
        ghost var before := events;
        if transitions[i].SiteOffline? == offline {
          events := events + [SiteEvent(transitions[i])];
          forall c
            ensures ByCamera(events, c) == ByCamera(before, c)
          {
            OneMoreEvent(before, SiteEvent(transitions[i]), c);
          }
          OneMoreEvent(before, SiteEvent(transitions[i]), "");
        }
      }
      assert transitions[..|transitions|] == transitions;
    }

    /** Looks at every ledger entry again: a link that is up releases its camera, late alert included. */
    method ReexamineSuppressed(pending: seq<Pending>)
      requires pendingTransitions.None?
      modifies this`siteSuppressed, this`events, this`pendingTransitions
      ensures pendingTransitions.None?
      ensures forall c :: Entry(siteSuppressed, c) == StillSuppressed(old(siteSuppressed), siteDetector.states, c)
      ensures forall c ::
                ByCamera(events, c)
                == ByCamera(old(events), c)
                   + (if FindPending(pending, c).Some? then []
                      else LateAlert(cameraStates, old(siteSuppressed), siteDetector.states, c))
      ensures SiteAnnouncements(events) == SiteAnnouncements(old(events))
    {
      hide Entry, StillSuppressed, LateAlert, ByCamera, Reexamined, SiteAnnouncements;
      var pendingIds := set i | 0 <= i < |pending| :: pending[i].cameraId;
      forall c
        ensures c in pendingIds <==> FindPending(pending, c).Some?
      {
        FindPendingMember(pending, c);
      }
      var todo := siteSuppressed.Keys;
      ghost var states := siteDetector.states;
      NothingReexamined(cameraStates, states, pendingIds, siteSuppressed, events);
      while todo != {}
        invariant pendingTransitions.None?
        invariant Reexamined(cameraStates, states, pendingIds, todo,
                             old(siteSuppressed), old(events), siteSuppressed, events)
      {
        var cameraId :| cameraId in todo;
        ghost var ledger, before := siteSuppressed, events;
        Reexamine(cameraId, pendingIds);
        OneMoreReexamined(cameraStates, states, pendingIds, todo,
                          old(siteSuppressed), old(events), ledger, before, siteSuppressed, events, cameraId);
        todo := todo - {cameraId};
      }
      AllReexamined(cameraStates, states, pendingIds, old(siteSuppressed), old(events), siteSuppressed, events);
    }

    /** One ledger entry. */
    method Reexamine(cameraId: CameraId, pendingIds: set<CameraId>)
      requires pendingTransitions.None?
      modifies this`siteSuppressed, this`events, this`pendingTransitions
      ensures pendingTransitions.None?
      ensures forall c :: Entry(siteSuppressed, c)
                          == if c == cameraId then StillSuppressed(old(siteSuppressed), siteDetector.states, c)
                             else Entry(old(siteSuppressed), c)
      ensures forall c ::
                ByCamera(events, c)
                == ByCamera(old(events), c)
                   + (if c != cameraId || c in pendingIds then []
                      else LateAlert(cameraStates, old(siteSuppressed), siteDetector.states, c))
      ensures SiteAnnouncements(events) == SiteAnnouncements(old(events))
    {
      hide ByCamera, SiteAnnouncements;
      if cameraId in siteSuppressed && LinkOf(siteDetector.states, siteSuppressed[cameraId]) == UP {
        siteSuppressed := siteSuppressed - {cameraId};
        if cameraId !in pendingIds && cameraId in cameraStates && Failing(cameraStates[cameraId].memory.status) {
          var status := cameraStates[cameraId].memory.status;
          ghost var late := CameraEvent(cameraId, status, status, None, None);
          EmitTransitionEvent(Pending(cameraId, status, status, None), true, None);
          forall c
            ensures ByCamera(events, c) == ByCamera(old(events), c) + (if c == cameraId then [late] else [])
          {
            OneMoreEvent(old(events), late, c);
          }
          OneMoreEvent(old(events), late, "");
        }
      }
    }

    /** The cycle's buffered transitions, each attributed to its site or sent as the camera's own. */
    method EmitPending(cameras: seq<Camera>, pending: seq<Pending>)
      requires DistinctPending(pending) && pendingTransitions.None?
      modifies this`siteSuppressed, this`events, this`pendingTransitions
      ensures pendingTransitions.None?
      ensures forall c ::
                Entry(siteSuppressed, c)
                == var t := FindPending(pending, c);
                   if t.Some? then Attribution(cameras, siteDetector.states, t.value) else Entry(old(siteSuppressed), c)
      ensures forall c ::
                ByCamera(events, c)
                == ByCamera(old(events), c)
                   + var t := FindPending(pending, c);
                     if t.Some? then [TransitionEvent(t.value, Attribution(cameras, siteDetector.states, t.value))]
                     else []
      ensures SiteAnnouncements(events) == SiteAnnouncements(old(events))
    {
      hide ByCamera, SiteAnnouncements, FindPending, Attribution, DistinctPending;
      assert pending[..0] == [];
      NothingPending();
      for k := 0 to |pending|
        invariant pendingTransitions.None?
        invariant forall c ::
                    Entry(siteSuppressed, c)
                    == var t := FindPending(pending[..k], c);
                       if t.Some? then Attribution(cameras, siteDetector.states, t.value)
                       else Entry(old(siteSuppressed), c)
        invariant forall c ::
                    ByCamera(events, c)
                    == ByCamera(old(events), c)
                       + var t := FindPending(pending[..k], c);
                         if t.Some? then [TransitionEvent(t.value, Attribution(cameras, siteDetector.states, t.value))]
                         else []
        invariant SiteAnnouncements(events) == SiteAnnouncements(old(events))
      {
        var t := pending[k];
        ghost var before, ledger := events, siteSuppressed;
        var attribution := Attribution(cameras, siteDetector.states, t);
        if attribution.Some? {
          siteSuppressed := siteSuppressed[t.cameraId := attribution.value];
        } else {
          siteSuppressed := siteSuppressed - {t.cameraId};
        }
        EmitTransitionEvent(t, true, attribution);
        FindPendingPrefix(pending, k, t.cameraId);
        forall c
          ensures FindPending(pending[..k + 1], c) == if c == t.cameraId then Some(t) else FindPending(pending[..k], c)
          ensures ByCamera(events, c)
                  == ByCamera(before, c) + (if c == t.cameraId then [TransitionEvent(t, attribution)] else [])
          ensures Entry(siteSuppressed, c) == if c == t.cameraId then attribution else Entry(ledger, c)
        {
          FindPendingStep(pending, k, c);
          OneMoreEvent(before, TransitionEvent(t, attribution), c);
        }
        OneMoreEvent(before, TransitionEvent(t, attribution), "");
      }
      assert pending[..|pending|] == pending;
    }

    method SampleAll(cameras: seq<Camera>) returns (samples: seq<SiteSample>)
      ensures samples == Samples(cameras, cameraStates)
    {
      samples := [];
      for i := 0 to |cameras|
        invariant samples == Samples(cameras[..i], cameraStates)
      {
        assert cameras[..i + 1][..i] == cameras[..i];
        var camera := cameras[i];
        if camera.id in cameraStates {
          var state := cameraStates[camera.id];
          samples := samples + [SiteSample(camera.id, camera.siteId, state.memory.status,
                                           state.networkCheck != NOT_APPLICABLE, state.networkCheck == FAILED)];
        }
      }
      assert cameras[..|cameras|] == cameras;
    }
  }
}
