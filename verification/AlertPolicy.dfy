/** Which events become alerts (src/notifications/alert-policy.ts). */
module AlertPolicy {
  import opened Options
  import opened CameraStatus
  import opened SiteOutage

  /** The health events put on the event bus. `siteOutage` is present when the metadata carries the tag. */
  datatype Event =
    | CameraEvent(
        cameraId: CameraId,
        status: HealthStatus,
        previousStatus: HealthStatus,
        outageDurationMs: Option<int>,
        siteOutage: Option<SiteId>)
    | SiteEvent(transition: SiteTransition)

  datatype Alert =
    | CameraAlert(eventType: string, cameraId: CameraId)
    | SiteAlert(eventType: string, siteId: SiteId)

  function EventType(event: Event): string {
    match event
    case CameraEvent(_, status, _, _, _) =>
      if status == ONLINE then "camera.online" else if status == DEGRADED then "camera.degraded" else "camera.offline"
    case SiteEvent(SiteOffline(_, _)) => "site.offline"
    case SiteEvent(SiteOnline(_, _, _)) => "site.online"
  }

  predicate IsCoveredBySiteAlert(event: Event) {
    event.CameraEvent? && event.siteOutage.Some?
  }

  function AlertFor(event: Event): Option<Alert> {
    if IsCoveredBySiteAlert(event) then None
    else if event.CameraEvent? then Some(CameraAlert(EventType(event), event.cameraId))
    else Some(SiteAlert(EventType(event), event.transition.siteId))
  }

  /** Asking for offline cameras is asking for both site alerts too, since these stand in for them. */
  predicate ChannelWantsEvent(configured: set<string>, eventType: string) {
    || eventType in configured
    || (eventType in {"site.offline", "site.online"} && "camera.offline" in configured)
  }

  /** Which channels an event is for: those that asked for it, and, for a site, also those that asked for offline
    * cameras. A failure that carries a site's tag raises no alert. */
  lemma WhoIsAlerted(configured: set<string>, event: Event)
    requires event.CameraEvent? ==> event.status != UNKNOWN
    ensures AlertFor(event).None? <==> event.CameraEvent? && event.siteOutage.Some?
    ensures ChannelWantsEvent(configured, EventType(event)) <==>
              match event
              case CameraEvent(_, status, _, _, _) =>
                || (status == ONLINE && "camera.online" in configured)
                || (status == DEGRADED && "camera.degraded" in configured)
                || (status == OFFLINE && "camera.offline" in configured)
              case SiteEvent(SiteOffline(_, _)) => "site.offline" in configured || "camera.offline" in configured
              case SiteEvent(SiteOnline(_, _, _)) => "site.online" in configured || "camera.offline" in configured
    ensures AlertFor(event).Some? ==>
              if event.CameraEvent? then AlertFor(event).value == CameraAlert(EventType(event), event.cameraId)
              else AlertFor(event).value == SiteAlert(EventType(event), event.transition.siteId)
  {
    assert EventType(event) in {"camera.online", "camera.degraded", "camera.offline", "site.offline", "site.online"};
    if event.CameraEvent? {
      assert EventType(event)[0] == 'c' && "site.offline"[0] == 's' && "site.online"[0] == 's';
    }
  }

  // ---------------------------------------------------------------------
  // Views of the bus
  // ---------------------------------------------------------------------

  /** The events of one camera, in order. */
  function ByCamera(events: seq<Event>, camera: CameraId): seq<Event> {
    if events == [] then []
    else
      var rest := ByCamera(events[..|events| - 1], camera);
      var last := events[|events| - 1];
      if last.CameraEvent? && last.cameraId == camera then rest + [last] else rest
  }

  /** The site announcements, in order. */
  function SiteAnnouncements(events: seq<Event>): seq<SiteTransition> {
    if events == [] then []
    else
      var rest := SiteAnnouncements(events[..|events| - 1]);
      var last := events[|events| - 1];
      if last.SiteEvent? then rest + [last.transition] else rest
  }

  lemma OneMoreEvent(events: seq<Event>, event: Event, camera: CameraId)
    ensures ByCamera(events + [event], camera)
            == ByCamera(events, camera) + (if event.CameraEvent? && event.cameraId == camera then [event] else [])
    ensures SiteAnnouncements(events + [event])
            == SiteAnnouncements(events) + (if event.SiteEvent? then [event.transition] else [])
  {
    assert (events + [event])[..|events|] == events;
  }
}
