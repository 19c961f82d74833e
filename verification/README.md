# A verified model of the video recorder's core

The appliance records cameras through MediaMTX, catalogues the segment files, deletes them under
retention and disk pressure, watches camera health, and notifies. These modules model the parts of
it that carry state, protocol or arithmetic, one module per source file or concern, and prove what
those parts are for:

- **The recording catalogue.** `CatalogueProtocol` is the life of a recording as a state machine: new
  files, a watermarked scan, two-phase deletes, crash recovery and motion keeps, with one step for each
  stretch of code between two awaits, in any interleaving, with a crash anywhere. `CatalogueSafety`
  proves its safety over all runs and says exactly which steps can break it. `RecordingStore`,
  `RecordingCatalog` and `SegmentIngest` are the imperative code of the same operations, proved against
  the protocol's invariant. `MotionBuffer` settles the fate of buffered segments, `RetentionPolicy` who
  may be deleted, `StorageController` the paging loop over the list it shrinks, `Timeline` the stitching
  of segments into spans.
- **Health and alerts.** `CameraStatus`, `SiteOutage`, `AlertPolicy` and `CameraHealth` are the status
  machine, the per-site link machine, the suppression rule and the poll cycle with its ledger of
  suppressed alerts. `HealthRuns` and `SiteOutageRuns` compose them over whole runs, `SiteLinkLaw` says
  when a site goes down and comes back, and `AlertGaps` has the runs in which alerts fall short.
- **Sessions.** `SessionCache` is the cache against concurrent revocation.
- **Geometry.** `Zones` is ray casting over exact reals and the zone truth table.
- **Formats.** `TarArchive` and `ZipArchive` are writers that fill buffers in place, with readers and
  round trips; `ByteBuffers` holds the shared byte arithmetic.
- **Bounded arithmetic and queues.** `TokenBucket`, `Schedule` and `WebhookQueue`.

Clocks, probe results, unlink outcomes, database failures, disk usage, random numbers, CRC-32 and gzip
are parameters. Times are integers (milliseconds, unless a module says otherwise).

## Where the code does not do what it is for

Some properties turned out not to hold of the code on all inputs. Each is proved with its exact
condition. The inputs on which it fails are in the same statement, or in the runs of a lemma named
with it:

- A delete goes on after its DELETE_PENDING update was lost: `updateRecordingStatus` swallows database
  errors (src/recordings/repositories/recording.repository.ts:269-282), so a crash after the unlink
  leaves a visible row without a file; without a crash that takes all three writes of the delete to
  fail. The same happens when motion, stalled for longer than the grace period, keeps a row that a
  delete has marked. `CatalogueSafety.StepKeepsIff` lists the unsafe steps, exactly
  (`CatalogueSafety.LostMarkLeavesVisibleRowWithoutFile`,
  `CatalogueSafety.LateKeepLeavesVisibleRowWithoutFile`).
- Whether a motion keeps a segment can depend on when the segment is catalogued: cataloguing looks up
  motion by the time the database stored it and includes the ends of the window, handling uses the
  clock after that and excludes them (`MotionBuffer.OrderIndependentIff`, `MotionBuffer.OneFateIff`,
  `MotionBuffer.MotionAcrossAnEndDependsOnOrder`).
- A motion that is handled while a segment is between its motion query and its row is lost
  (`MotionBuffer.DividedCataloguingLosesMotion`).
- A channel that asked for degraded cameras, but not for offline ones or offline sites, hears nothing
  of a degraded camera behind a site outage (`HealthRuns.ChannelHearsIff`,
  `AlertGaps.DegradedChannelHearsNothing`).
- A site that is down when its last checked camera goes is forgotten without being announced back, so
  its alerts do not alternate if it goes dark again (`HealthRuns.SiteLogAlternatesIff`,
  `AlertGaps.SiteAlertsNeedNotAlternate`).
- The first use of a rate-limited key is granted even at capacity 0 (`TokenBucket.BudgetIffCapacity`).
- The schedule grid does not show overnight windows, and shows some empty ones
  (`Schedule.GridShowsWindowIff`); a full day in the grid is off at 23:59
  (`Schedule.SchedulerFollowsGrid`).
- A webhook delivery whose payload cannot be written as JSON, or whose secret cannot sign, rejects a
  promise nobody handles: Node ends the process, and every queued and unresolved delivery is lost
  (`WebhookQueue.ConservedIff`, `WebhookQueue.RejectionLosesEverything`).
- The zip date field holds years up to 2107 only; later dates make the writer throw
  (`ZipArchive.DosRoundTrip`, `ZipArchive.BuildZipArchive`).

## Model

| member | source | states |
|---|---|---|
| CatalogueSafety.CrashSafeCatalogue | src/recordings/segment-ingest.ts:167-221 | Over every interleaving of recording, scanning, deleting, recovering and crashing from an empty volume: no path has two rows, every visible row has its file, every file at or below a watermark has a row, and a watermark reloaded from the newest row covers exactly the files that have a row |
| CatalogueSafety.NothingLeavesEarlyInRuns | src/recordings/recording-catalog.ts:91-178 | In every such run a row disappears only once its file is gone, and a file only once its row is no longer visible |
| CatalogueSafety.PlainRunIsSafe | src/recordings/segment-ingest.ts:213-281 | Without removals by another hand, motion keeps and lost marks, every step of every run is safe: no delete unlinks the file a scan is validating |
| CatalogueSafety.SafeRunsResumeExactly | src/recordings/segment-ingest.ts:167-221 | The same end for all runs of safe steps, motion keeps and foreign removals included |
| CatalogueSafety.StepKeepsIff | src/recordings/recording-catalog.ts:91-178 | A step of the scan, a delete, recovery, motion or a crash keeps the catalogue's invariant if and only if it is safe; only four kinds of step can be unsafe, each under a condition on the state before it |
| CatalogueSafety.SafeRunsKeepInv | src/recordings/recording-catalog.ts:91-178 | From any sound state, after any safe run, including crashes and scans in progress, the catalogue is sound |
| CatalogueSafety.NothingLeavesEarly | src/recordings/recording-catalog.ts:91-147 | Each safe step lets a row go only after its file, and a file only after its row stopped being visible |
| CatalogueSafety.MarkKeepsIff | src/recordings/recording-catalog.ts:99-108 | The first phase of a delete is safe exactly when the mark was written or the row was not visible |
| CatalogueSafety.KeepKeepsIff | src/recordings/segment-ingest.ts:103-117 | A motion keep is safe exactly when the row is gone, or its file is there and no delete that marked it is still to unlink it |
| CatalogueSafety.InsertKeepsIff | src/recordings/segment-ingest.ts:213-281 | Writing a row is safe exactly when its file still exists |
| CatalogueSafety.VanishKeepsIff | src/recordings/recording-catalog.ts:91-147 | A file removed by another hand is harmless exactly when no visible row claims it |
| CatalogueSafety.LostMarkLeavesVisibleRowWithoutFile | src/recordings/repositories/recording.repository.ts:269-282 | Whenever a mark is lost on a visible row, unlinking next leaves a visible row without a file |
| CatalogueSafety.LateKeepLeavesVisibleRowWithoutFile | src/recordings/segment-ingest.ts:103-117 | A row deleted between motion's read and its update ends visible without a file, whenever a delete may start in between; for a row still buffered that takes a stall longer than the grace period |
| RecordingCatalog.RecordingCatalog.DeleteSegmentInternal | src/recordings/recording-catalog.ts:91-147 | Every outcome of a two-phase delete, from which of the unlink, the two status updates and the drop fail; no other row or file is touched; a sound catalogue stays sound if and only if not all three writes failed on a visible row whose file was unlinked |
| RecordingCatalog.RecordingCatalog.ReconcileOne | src/recordings/recording-catalog.ts:157-175 | A DELETE_PENDING row loses its row and file, becomes GARBAGE because its file cannot be removed or its row not be dropped, or the drop of a stale row throws and leaves it |
| RecordingCatalog.RecordingCatalog.ReconcilePendingDeletions | src/recordings/recording-catalog.ts:152-178 | Whatever the file system and the database refuse: every row it takes is settled and truly counted, it stops at the first drop that throws, and having taken fewer than 200 it leaves no DELETE_PENDING row but those whose GARBAGE mark was lost |
| RecordingStore.Store.FindLatestStartTime | src/recordings/repositories/recording.repository.ts:193-200 | The newest start over all rows of the camera, or nothing when it has none |
| RecordingStore.Store.FindRecordingsInRange | src/recordings/repositories/recording.repository.ts:202-219 | The rows with the status that overlap the range, each once and oldest first: all of them, or the oldest 3000 |
| RecordingStore.Store.FindRecordingsByStatus | src/recordings/repositories/recording.repository.ts:284-291 | The rows with the status, each once and oldest first: all of them, or the oldest up to the limit |
| SegmentIngest.SegmentIngest.ScanCamera | src/recordings/segment-ingest.ts:167-210 | After a scan every finished file has exactly one row, only the newest file can be without one and only while it may still be written; old rows are untouched; a new row has its file's size and times, is QUARANTINED if and only if the file is unsound or under 1024 bytes, else BUFFERED if and only if the mode is MOTION_ONLY and no stored motion of the camera lies in [start - post, end + pre], else AVAILABLE, and has tier EVENT if and only if such a motion exists |
| SegmentIngest.SegmentIngest.ScanNames | src/recordings/segment-ingest.ts:167-210 | The loop over names: every handled name is catalogued and only the last name, still being written, may be left |
| SegmentIngest.SegmentIngest.ScanFile | src/recordings/segment-ingest.ts:213-281 | A file gets one row if it has none, without breaking the scan's invariant |
| SegmentIngest.SegmentIngest.OnMotion | src/recordings/segment-ingest.ts:103-117 | With fewer than 3000 touched rows, exactly the buffered rows the motion touches become AVAILABLE, exactly the touched rows get tier EVENT, and the number kept is reported; with more, no row is changed in any other way |
| SegmentIngest.SegmentIngest.ExpireBufferedSegments | src/recordings/segment-ingest.ts:294-305 | Whatever unlinks, status updates and drops fail: only expirable buffered segments are touched, all of them below the scan limit; each loses its row and file or keeps the last status written; none is left when unlinks and drops succeed; and the catalogue stays sound if and only if no segment met the three lost writes after its unlink |
| SegmentIngest.SegmentIngest.SetMotionWindow | src/recordings/segment-ingest.ts:154-157 | The buffers are taken as given inside 2-60 s and 5-300 s, and the nearest bound otherwise |
| MotionBuffer.FateOfSegment | src/recordings/segment-ingest.ts:263-292 | A segment's final status and tier, for any motions before cataloguing and any sequence after |
| MotionBuffer.OrderIndependentIff | src/recordings/segment-ingest.ts:103-117 | Cataloguing before some motions gives the row that cataloguing after them gives, if and only if something stored earlier is near the segment or the two queries agree whether any of those motions counts |
| MotionBuffer.OneFateIff | src/recordings/segment-ingest.ts:103-117 | Over every order a segment has one fate if and only if both queries count one same motion, or neither counts any |
| MotionBuffer.QueriesDisagreeIff | src/recordings/segment-ingest.ts:284-291 | The query at cataloguing, by the time a motion was stored, and the one at handling, by the clock then, disagree exactly when an end of the window lies between the two times |
| MotionBuffer.MotionAcrossAnEndDependsOnOrder | src/recordings/recording-engine.ts:168-171 | For every segment there are two such motions, one only cataloguing afterwards keeps it for and one only cataloguing before does |
| MotionBuffer.ExpiryNeverLosesMotion | src/recordings/segment-ingest.ts:294-305 | Over any run, crashes between a query and its row included, no motion ever handled, earlier or later by up to the grace period, counts for a segment that was expired by the query that had to count it |
| MotionBuffer.StoredMotionCounts | src/recordings/segment-ingest.ts:284-291 | A motion stored before a segment's query keeps it, handled or not, and all motion stored or handled by then is known to it |
| MotionBuffer.CrashForgets | src/recordings/segment-ingest.ts:213-281 | A crash loses the answers of queries whose rows are not written, and their segments are judged again |
| MotionBuffer.QuietSegmentExpires | src/recordings/segment-ingest.ts:294-305 | A segment that nothing moves near is catalogued as BUFFERED and can expire once the clock is past its end by the window and the grace period |
| MotionBuffer.LateMotionKeeps | src/recordings/segment-ingest.ts:103-117 | A motion handled late by up to the grace period still finds its segment and keeps it, stored or not |
| MotionBuffer.DividedCataloguingLosesMotion | src/recordings/segment-ingest.ts:213-292 | A motion its query did not know, handled between a segment's query and its row, leaves the row BUFFERED |
| RetentionPolicy.RetentionPolicy.Deletable | src/recordings/retention-policy.ts:94-149 | A segment is returned if and only if it is a candidate, not BUFFERED, neither protected nor of tier PROTECTED, by age older than its tier's raised lifetime (or the override), and overlaps no window around a bookmark and no export of its camera; in order, although bookmarks are fetched for the batch's span only |
| RetentionPolicy.BoundedQueryLosesNothing | src/recordings/retention-policy.ts:127-149 | Bookmarks outside the widened span of a batch hold nothing in it |
| RetentionPolicy.BatchingDoesNotMatter | src/recordings/retention-policy.ts:94-111 | Splitting the candidates into batches does not change the answer |
| RetentionPolicy.AllowedMembers | src/recordings/retention-policy.ts:94-125 | A segment is returned if and only if it is a candidate, not buffered, not legally held, in no hold window and (by age) past its lifetime |
| RetentionPolicy.AgeIsCapacityPastLifetime | src/recordings/retention-policy.ts:94-111 | The age answer is the capacity answer restricted to segments past their lifetime |
| RetentionPolicy.LongerTierNeverExpiresSooner | src/recordings/retention-policy.ts:84-88 | Whatever the settings, an INCIDENT segment expires no sooner than an EVENT one, and that no sooner than a CONTINUOUS one |
| RetentionPolicy.RetentionPolicy.SetDays | src/recordings/retention-policy.ts:74-82 | A change replaces exactly the given settings, never below zero, so that afterwards only footage that started in the past can be past its lifetime |
| StorageController.StorageController.DeleteOldestSegments | src/recordings/storage-controller.ts:429-481 | Only rows the policy allows are attempted, and a row changes only by its own delete, gone or GARBAGE, even when deletes fail; at most 2 * maxIterations batches; a capacity run starts each batch on a fresh reading above the target and ends at the first one that is not; when nothing fails each pass deletes exactly the allowed rows of the prefix it examined, the whole list when the iteration cap has room and no reading ended the run, and "all remaining protected" is true |
| StorageController.StorageController.RunPass | src/recordings/storage-controller.ts:437-480 | One pass ends at the end of the list, at the target or at the iteration cap; when nothing fails exactly the allowed rows of the examined prefix are gone, and "all held" means every row was examined |
| StorageController.StorageController.OnePage | src/recordings/storage-controller.ts:441-476 | One round of the loop: a batch starts only above the target, and each way of stopping says what it means for the rows |
| StorageController.StorageController.RunPage | src/recordings/storage-controller.ts:443-475 | One page: `skip` equals the held rows passed so far, so the next page continues where this one ended although the list shrank |
| StorageController.StorageController.RunBatch | src/recordings/storage-controller.ts:455-475 | The rows of a page: exactly the allowed ones are attempted, in order, and counts and bytes are those of the deleted rows |
| StorageController.OldestFirst | src/recordings/storage-controller.ts:429-481 | No row goes while an older deletable row of the same pass survives |
| StorageController.HeldMeansHeld | src/recordings/storage-controller.ts:470-480 | When a pass examined everything, no surviving row is deletable |
| StorageController.QuarantinedGoFirst | src/recordings/storage-controller.ts:437-480 | When the first pass saw every quarantined row, no deletable one is left before good footage is looked at, and no good footage has gone |
| StorageController.PressureReliefIsBounded | src/recordings/storage-controller.ts:364-376 | Whatever else writes to the disk, at most a batch of rows goes from the moment the usage is down to the target for good |
| Timeline.GetTimelineSpans | src/recordings/recording-catalog.ts:206-235 | The loop that rewrites the last span computes the stitching and the sum of its durations, each the length to the nearest second |
| Timeline.SpansAreCanonical | src/recordings/recording-catalog.ts:208-229 | The records are cut in order into one group per span; a span runs from its first record's start to the latest end of the group; any uncovered stretch in a span is at most 5 s |
| Timeline.GroupsAreUnique | src/recordings/recording-catalog.ts:208-229 | No other cut of the records has hole-free groups that lie apart |
| Timeline.SpansLieApart | src/recordings/recording-catalog.ts:208-229 | Spans are in time order, more than 5 s apart |
| Timeline.StitchingIsIdempotent | src/recordings/recording-catalog.ts:208-229 | Stitching the spans again changes nothing |
| Timeline.NoLongHole | src/recordings/recording-catalog.ts:208-229 | Each instant in a span is recorded or in a hole of at most 5 s between recorded instants |
| CameraStatus.StatusEqualsReading | src/health/camera-status.ts:36-76 | For every history the incremental machine equals a direct reading of the trailing failing and unreachable runs, in status and in every remembered field |
| CameraStatus.StatusSays | src/health/camera-status.ts:42-80 | OFFLINE if and only if the last two samples are bad and the handshakes have failed for 30 s, DEGRADED if they are bad otherwise, UNKNOWN before the first verdict; a good sample has a ready stream over 50 kbps and, with a TCP probe, an answer within 500 ms |
| CameraStatus.RecoveryDuration | src/health/camera-status.ts:46-50 | A recovery, and only a recovery, reports the time since the first sample of the failing run it ends |
| CameraStatus.OneBadSampleChangesNothing | src/health/camera-status.ts:36-76 | A single failing sample after a healthy one never changes the status |
| CameraStatus.ReasonNamesTheFault | src/health/camera-status.ts:53-58 | For every failing sample the TCP probe can deliver, the reason names the first condition of a healthy sample that fails, and never blames one that holds |
| SiteOutage.SiteOutageDetector.Evaluate | src/health/site-outage.ts:46-92 | Updating the two maps in place gives the next link memory of every site at once, and the announcements in group order |
| SiteOutage.SiteOutageDetector.Advance | src/health/site-outage.ts:55-81 | One site: DOWN if and only if two or more cameras are checked, none is reachable, and it was DOWN or all are OFFLINE; SUSPECTED if they are unreachable otherwise; its transition is announced and the others keep their memory |
| SiteOutage.SiteOutageDetector.GroupBySite | src/health/site-outage.ts:47-51 | Exactly the network-checked samples of each real site, in order |
| SiteOutage.AnnouncementsAboutSite | src/health/site-outage.ts:54-92 | A site is announced at most once per evaluation, whatever the other sites do |
| SiteOutage.NextLinksValid | src/health/site-outage.ts:46-92 | A site has a down-since time exactly while it is DOWN |
| CameraHealth.CameraHealthService.PollAllCameras | src/health/camera-health.service.ts:373-418 | A whole cycle: new camera memory, ledger and links, the events of each camera and the site announcements; nothing at all when a cycle is already running |
| CameraHealth.CameraHealthService.CheckCamera | src/health/camera-health.service.ts:177-285 | One check updates the camera's memory; its transition, if any, is buffered inside a poll cycle and goes to the bus as the camera's own outside one |
| CameraHealth.CameraHealthService.EmitTransitionEvent | src/health/camera-health.service.ts:290-342 | Inside a cycle an undecided transition is buffered, otherwise it goes to the bus |
| CameraHealth.CameraHealthService.FinishCycle | src/health/camera-health.service.ts:427-492 | The end of a cycle for every camera: its ledger entry and exactly the events it gets |
| CameraHealth.CameraHealthService.ReexamineSuppressed | src/health/camera-health.service.ts:454-468 | Each suppressed camera stays suppressed, is dropped, or gets its own late alert, never two of these |
| CameraHealth.CameraHealthService.EmitPending | src/health/camera-health.service.ts:470-487 | Each buffered transition is emitted once, tagged exactly when its site explains it, and the ledger records just that |
| AlertPolicy.WhoIsAlerted | src/notifications/alert-policy.ts:48-100 | A channel gets the camera events it asked for, and both site events when it asked for them or for offline cameras; a failure with a site's tag raises no alert |
| HealthRuns.NoAlertLost | src/health/camera-health.service.ts:427-492 | After any run a failing camera's last event carries its current status and is suppressed exactly when it is in the ledger; then its site is SUSPECTED, or DOWN with the outage as the last word on the site |
| HealthRuns.RecoveriesAreAnnounced | src/health/camera-health.service.ts:466-489 | Over any run only failures are suppressed: a camera that comes back always raises its own alert |
| HealthRuns.LedgerOverRuns | src/health/camera-health.service.ts:427-492 | After any run, for every camera: the ledger is sound, the last event is current, and no event repeats the one before |
| HealthRuns.DownSiteWasAnnounced | src/health/camera-health.service.ts:440-492 | While a site is DOWN the last thing announced about it is its outage |
| HealthRuns.ChannelHearsIff | src/notifications/alert-policy.ts:93-100 | A failing camera suppressed while its site is down reaches every channel that asked for its event, if and only if the camera is offline or the channel also asked for offline cameras or offline sites |
| HealthRuns.SiteLogAlternatesIff | src/health/site-outage.ts:54-92 | The announcements about a site alternate, offline first, if and only if no poll finds all its checked cameras offline (two or more) after a poll that found it down and none of them checked |
| AlertGaps.SiteAlertsNeedNotAlternate | src/health/site-outage.ts:54-92 | A site that goes dark, loses its cameras, gets them back and goes dark again has two outages announced with no recovery between them |
| AlertGaps.DegradedChannelHearsNothing | src/notifications/alert-policy.ts:93-100 | At a dark site the camera without a probe is degraded, its own alert suppressed, and a channel for degraded cameras hears nothing |
| AlertGaps.DarkTwiceMeans | src/health/camera-health.service.ts:427-492 | From any run that left no camera known, two polls of the dark site 30 s apart end with the site down and the degraded camera suppressed |
| HealthRuns.CycleAnnouncesSite | src/health/camera-health.service.ts:440-492 | What a cycle announces about a site depends on that site's cameras alone |
| SiteOutageRuns.SiteOutageEndToEnd | src/health/site-outage.ts:46-92 | While every network-checked camera of a site (two or more) fails, no camera of the site raises its own alert, the outage is announced at most once, and it has been announced once a poll came 30 s after the first |
| SiteOutageRuns.OutageIsCovered | src/health/camera-health.service.ts:427-492 | From the first such poll on every failure event of the site carries the site's tag |
| SiteOutageRuns.OutageIsAnnouncedOnce | src/health/site-outage.ts:54-92 | The outage is announced exactly once, when the link goes DOWN, by any poll 30 s after the first |
| SiteOutageRuns.OutageIsAnnouncedInTime | src/health/site-outage.ts:54-92 | By the first poll 30 s or more after the first failed one the outage has been announced |
| SiteOutageRuns.MembersKeepFailing | src/health/camera-status.ts:60-76 | Through the outage each member's failing run grows from its first failed poll and it is OFFLINE after 30 s |
| SiteLinkLaw.LinkAfterPoll | src/health/site-outage.ts:46-92 | After any run one poll decides a site's link by the network checks of its cameras: DOWN if two or more are checked, all failed, and it was DOWN or all are OFFLINE; SUSPECTED if all failed otherwise; UP in any other case; with what is announced, naming the checked cameras |
| SiteLinkLaw.RecoveryIsAnnounced | src/health/site-outage.ts:62-80 | A DOWN site stays DOWN if and only if two or more of its cameras are checked and all fail; any other poll with a checked camera leaves it UP and announces that once, with the time since the poll that announced the outage |
| SiteLinkLaw.DownSinceAnnounced | src/health/site-outage.ts:69-82 | A DOWN site was announced so, and remembers the time of the poll that did it |
| SiteLinkLaw.NoSiteWithoutName | src/health/site-outage.ts:46-50 | The empty string names no site: over any run it is UP and nothing is announced about it |
| SessionCache.Cache.Begin | src/users/session.ts:25-33 | Before the read: a fresh entry answers, accepting exactly its user's role and version; anything else captures the user's generation |
| SessionCache.Cache.Complete | src/users/session.ts:34-41 | After the read: stored only if the generation is unchanged; accepts exactly the role and version read; the oldest entry makes room |
| SessionCache.Cache.InvalidateSessionCache | src/users/session.ts:43-51 | Forgets one user and bumps their counter, or forgets all and bumps the global one |
| SessionCache.SessionStepKeeps | src/users/session.ts:15-51 | Every step of lookups, updates and invalidations of one user or of all keeps the protocol's invariant |
| SessionCache.CachedEqualsDatabase | src/users/session.ts:15-51 | Over all interleavings a cached entry, or a read that would still be stored, equals the database unless an update of that user waits for its invalidation |
| SessionCache.RevokedTokenIsNeverAccepted | src/users/session.ts:25-51 | A lookup that starts after a revocation returned accepts only by a state of the row no older than the revocation, with the token's role and version, whatever happens while it is suspended |
| SessionCache.RevokedTokenIsRefused | src/users/session.ts:25-51 | After a deletion, a role change or a raised version and its invalidation, the token is refused by every later lookup until the row has its role and version again, and for good once versions are beyond its own |
| SessionCache.UnchangedUserIsAnsweredExactly | src/users/session.ts:15-51 | While no update of the user waits and the row stays as it is, whatever else happens, a lookup accepts a token if and only if it has the row's role and version |
| Zones.IsPointInPolygon | src/zones/spatial-motion-filter.ts:18-42 | The toggling loop computes the parity of edge crossings around the closed polygon |
| Zones.EdgeTest | src/zones/spatial-motion-filter.ts:26-38 | Without the division: an edge going up is crossed by the points on its left within its half-open span of heights, one going down by those on its right |
| Zones.TriangleInside | src/zones/spatial-motion-filter.ts:18-42 | Off the edge lines a point is inside a triangle if and only if it is on the same side of all three edges |
| Zones.InsideIsFanParity | src/zones/spatial-motion-filter.ts:18-42 | Off the lines of the fan a point is inside any polygon if and only if it lies in an odd number of the triangles of its fan |
| Zones.RotationInvariant | src/zones/spatial-motion-filter.ts:18-42 | Starting the vertex list elsewhere changes nothing |
| Zones.ReversalInvariant | src/zones/spatial-motion-filter.ts:18-42 | Reversing the vertex list changes nothing |
| Zones.ChordCut | src/zones/spatial-motion-filter.ts:18-42 | Cutting along a chord: inside the whole is inside exactly one part |
| Zones.OutsideBoundingBox | src/zones/spatial-motion-filter.ts:18-42 | A point strictly outside the bounding box on any side is never inside |
| Zones.FewVerticesAreOutside | src/zones/spatial-motion-filter.ts:18-42 | Fewer than three vertices contain nothing |
| Zones.MeetsAtSymmetric | src/zones/spatial-motion-filter.ts:26-38 | The nonlinear edge test does not depend on the direction of the edge |
| Zones.EvaluateMotionPoint | src/zones/spatial-motion-filter.ts:84-139 | The truth table: excluded nowhere and, if any inclusion zone is enabled, included somewhere; with exactly the zones that matched |
| Zones.EvaluateCellGrid | src/zones/spatial-motion-filter.ts:148-206 | A grid passes when some cell's centroid passes, never without cells, always with malformed dimensions; with exactly the zones behind the answer |
| TarArchive.CreateTarEntry | src/system/backup.service.ts:40-85 | The header written in place, checksum last, and the padded content are the entry |
| TarArchive.BuildTarArchive | src/system/backup.service.ts:87-93 | The loop writes the entries in order and the closing zero blocks, the archive the round trip is about |
| TarArchive.ExtractTar | src/system/backup.service.ts:95-135 | The parser's loop over headers and contents refines the recursive reader the round trip is about, malformed sizes and truncated content included |
| TarArchive.TarRoundTrip | src/system/backup.service.ts:40-135 | For all contents under 8^11 bytes and gzip an inverse pair, extracting gives every non-empty file under its shown name, the last of a name winning |
| TarArchive.PlainFilesComeBack | src/system/backup.service.ts:40-135 | For non-empty contents with distinct plain names of at most 100 bytes, that is exactly the names and bytes put in |
| TarArchive.ExtractEntries | src/system/backup.service.ts:95-135 | The parser passes any number of printed entries wherever they lie |
| TarArchive.ChecksumFits | src/system/backup.service.ts:73-78 | The checksum always fits its six octal digits and is what a reader computes |
| TarArchive.HeaderFixedBytes | src/system/backup.service.ts:40-71 | Mode 0644, owner and group 0, a regular file, ustar version 00, and zeros everywhere else |
| TarArchive.MtimeComesBack | src/system/backup.service.ts:56-62 | The modification time is read back, and both numbers end with a NUL |
| TarArchive.ParseInt8Reads | src/system/backup.service.ts:114-120 | Of any field: blanks are skipped, then a sign and all octal digits up to the first other byte count; no digit is no number |
| TarArchive.PaddingFills | src/system/backup.service.ts:80-84 | As few bytes as fill the last block of 512 |
| TarArchive.WholeBlocks | src/system/backup.service.ts:80-93 | An archive is whole blocks of 512 bytes and ends with two zero blocks |
| TarArchive.FieldRoundTrip | src/system/backup.service.ts:40-72 | A number that fits its octal field is read back as written |
| TarArchive.NameComesBack | src/system/backup.service.ts:95-135 | A name is read back up to its first NUL or 100 bytes |
| TarArchive.SizeComesBack | src/system/backup.service.ts:95-135 | A size under 8^11 is read back |
| ZipArchive.BuildZipArchive | src/export/zip-builder.ts:30-102 | Succeeds if and only if there are at most 65535 files, each with a name of at most 65535 bytes, content under 4 GiB and a year up to 2107, and local part and directory under 4 GiB; the archive reads back as exactly the given names, contents and checksums, with the times to the even second |
| ZipArchive.WritableIff | src/export/zip-builder.ts:30-102 | The fields of all records fit their 16 and 32 bits under that condition on the files alone |
| ZipArchive.LocalFixedBytes | src/export/zip-builder.ts:45-57 | Signature, version 2.0, UTF-8 name, stored, no extra field |
| ZipArchive.CentralFixedBytes | src/export/zip-builder.ts:62-80 | The same in the directory, with a regular file rw-r--r--, no comment, disk 0 |
| ZipArchive.EndBytes | src/export/zip-builder.ts:90-99 | One disk, both counts, the directory's size and offset, no comment |
| ZipArchive.ZipRoundTrip | src/export/zip-builder.ts:30-102 | Reading the last 22 bytes and walking the directory recovers every name, stamp and content in order, local and central records agreeing (PKWARE APPNOTE sections 4.3.7, 4.3.12 and 4.3.16) |
| ZipArchive.CentralReads | src/export/zip-builder.ts:44-83 | A central record and the local record it points at are read back as one member |
| ZipArchive.BuildLocalHeader | src/export/zip-builder.ts:45-57 | Filling the buffer in place gives the local header |
| ZipArchive.BuildCentralHeader | src/export/zip-builder.ts:62-80 | Filling the buffer in place gives the central record with its offset |
| ZipArchive.DosRoundTrip | src/export/zip-builder.ts:16-28 | A date comes back to the even second, one before 1980 with that year; the date fits 16 bits if and only if the year is at most 2107 |
| TokenBucket.TokenBucketRateLimiter.TryAcquire | src/notifications/token-bucket-rate-limiter.ts:54-105 | One attempt's answer and the key's new bucket; other keys are untouched |
| TokenBucket.LazyIsEager | src/notifications/token-bucket-rate-limiter.ts:54-105 | For every non-decreasing call sequence the lazy bucket gives the very answers, waits included, of a bucket ticked once per interval |
| TokenBucket.GrantsAreBounded | src/notifications/token-bucket-rate-limiter.ts:54-105 | Grants from first use to t never exceed capacity + floor((t - t0) / interval) |
| TokenBucket.BudgetIffCapacity | src/notifications/token-bucket-rate-limiter.ts:64-72 | That bound holds for all runs if and only if the capacity is at least 1 |
| TokenBucket.GrantsAreApart | src/notifications/token-bucket-rate-limiter.ts:74-84 | Two grants on a key are at least the later call's cooldown apart |
| TokenBucket.WaitIsExact | src/notifications/token-bucket-rate-limiter.ts:86-105 | After an exhausted-bucket denial the next try is granted if and only if waitSeconds or more have passed |
| TokenBucket.CooldownWaitIsExact | src/notifications/token-bucket-rate-limiter.ts:74-84 | After a cooldown denial the cooldown is over if and only if waitSeconds or more have passed |
| TokenBucket.KeysAreIndependent | src/notifications/token-bucket-rate-limiter.ts:39-105 | A key's bucket depends on the attempts on that key alone |
| Schedule.IsCameraActiveAt | src/recordings/recording-scheduler.ts:64-108 | Always on, off for the two modes that do not follow the windows, and otherwise on if and only if the minute of the week lies in some window's cyclic interval modulo 10080 |
| Schedule.CoversByDay | src/recordings/recording-scheduler.ts:72-105 | Today's and yesterday's branches together are the cyclic interval, overnight and Saturday to Sunday included |
| Schedule.GridToWindows | src/settings/settings.types.ts:78-113 | The windows are the maximal runs of active hours of each day, in order; an hour lies whole in a window if and only if its cell is there and on |
| Schedule.WindowsToGrid | src/settings/settings.types.ts:118-132 | A cell is set if and only if some window of that day starts by that hour and ends in it or later, hours out of range clamped |
| Schedule.GridRoundTrip | src/settings/settings.types.ts:78-132 | windowsToGrid after gridToWindows is the identity on every grid |
| Schedule.SchedulerFollowsGrid | src/settings/settings.types.ts:78-113 | The scheduler on a grid's windows agrees with the grid at every minute except 23:59, where it is off |
| Schedule.GridShowsWindowIff | src/settings/settings.types.ts:118-132 | The grid shows exactly the hours a window is active in if and only if the window is a daytime one, or empty on a whole hour other than midnight |
| WebhookQueue.WebhookDispatcher.EnqueueEvent | src/webhooks/webhook-dispatcher.service.ts:302-332 | An event is queued and processed, or dropped when 500 are waiting |
| WebhookQueue.WebhookDispatcher.ProcessQueue | src/webhooks/webhook-dispatcher.service.ts:398-427 | The loop starts the first due jobs until none is due or five are active |
| WebhookQueue.WebhookDispatcher.OnResult | src/webhooks/webhook-dispatcher.service.ts:409-421 | A 2xx delivers, a 4xx other than 429 drops, and anything else requeues the job 2^attempts seconds later, within 20 % of it by the random number, as long as attempts are left |
| WebhookQueue.EveryEndIsEnabled | src/webhooks/webhook-dispatcher.service.ts:337-427 | Any attempt can end without a response; one that can be written and signed in any status; only another one by throwing, after which the process may end |
| WebhookQueue.WebhookDispatcher.OnFinally | src/webhooks/webhook-dispatcher.service.ts:422-425 | The slot is freed and the queue processed |
| WebhookQueue.StepKeeps | src/webhooks/webhook-dispatcher.service.ts:302-427 | Every step in any order keeps the accounting of places, attempts and bounds |
| WebhookQueue.QueueIsSafe | src/webhooks/webhook-dispatcher.service.ts:302-427 | Over every interleaving queued plus unresolved never exceed 505 and active never 5, no job is attempted more than maxAttempts times, its payload stays that of its delivery id, and it is in at most one place |
| WebhookQueue.ConservedIff | src/webhooks/webhook-dispatcher.service.ts:337-427 | Over every run whose events carry payloads from a given set, every accepted job is always in exactly one of queued, in flight, delivered, dropped as terminal and dropped as exhausted, if and only if every payload of the set can be written as JSON and signed |
| WebhookQueue.RejectionLosesEverything | src/webhooks/webhook-dispatcher.service.ts:408-425 | A job that cannot be sent may end the process, and with it every queued and unresolved delivery |
| WebhookQueue.WorkRunsOut | src/webhooks/webhook-dispatcher.service.ts:398-427 | Without new events no more deliveries start than there are attempts left, from any reachable state |
| WebhookQueue.ProcessStartsInOrder | src/webhooks/webhook-dispatcher.service.ts:398-407 | The jobs started are the first due ones in queue order, as many as there are free slots; all others stay, in order |
| WebhookQueue.ProcessSaturates | src/webhooks/webhook-dispatcher.service.ts:398-427 | After processing, five are active or nothing queued is due |
| WebhookQueue.DelayWithinJitter | src/webhooks/webhook-dispatcher.service.ts:414-417 | The backoff stays within 20 % of 2^attempts seconds; the 500 ms floor never binds |
| WebhookQueue.DelayIs | src/webhooks/webhook-dispatcher.service.ts:414-417 | The delay is 1000 * 2^attempts * (0.8 + 0.4 * random), rounded to a millisecond |
| WebhookQueue.BackoffGrows | src/webhooks/webhook-dispatcher.service.ts:414-417 | A later retry waits longer than an earlier one, whatever the jitter |

## Left out

- Routes, plugins, the web client, Prisma, MediaMTX, SMTP, WhatsApp, ONVIF SOAP, ffmpeg, the write canary and `statfs`: I/O; their outcomes are parameters.
- Camera scope merge, login throttle, job queue, export pruning and the evidence bundle: they keep no state or protocol of their own beyond what is modelled here.
- File validation: a file is described by whether its container is sound and its size; SHA-256, codecs and durations are not modelled. File names are start times, distinct within a camera.
- The path containment check before an unlink, the MISSING step of the storage audit, and camera deletion (cascading rows, forgetting a watermark).
- `fsAccess` errors other than a missing file, and database errors in queries.
- SegmentIngest: scan counters, and a motion window changed while a scan runs. A scan, a motion or an expiry runs uninterrupted in the class; the interleavings are in `CatalogueProtocol` and `MotionBuffer`.
- StorageController: exact paging after a failed delete, which the code does not have; a failed delete leaves GARBAGE there, and every other status it can leave is in `DeleteSegmentInternal`; `checkStorage`'s thresholds, events and health; freed bytes of rows whose file was already gone.
- RetentionPolicy: protected-bytes accounting; a setting explicitly passed as `undefined`.
- Timeline: the choice of the day's bounds.
- Health: telemetry, the bitrate computation, the limit on concurrent checks (checks of one cycle are taken in list order), and, over runs, cameras changing site and checks outside a poll cycle.
- SessionCache: rows restored from a backup without an invalidation; non-atomic updates of `tokenVersion`.
- Zones: floating-point rounding, the per-camera zone cache, and the wording of reasons.
- TarArchive: names are bytes (UTF-8 encoding is not modelled); empty files are written and dropped by the parser, as in the code; gzip is an inverse pair.
- ZipArchive: bit packing of dates is arithmetic on disjoint fields; local time zones and CRC-32 are parameters.
- TokenBucket: amounts are whole numbers in a unit that makes the refill interval whole; a zero or negative refill rate; `reset`, used by tests only.
- Schedule: reconciling MediaMTX with the schedule, and the conversion of a date to a day and a minute.
- WebhookQueue: endpoint selection, the SSRF guard and HTTP are one outcome per attempt; `reset`, used by tests only; what the process does when it starts again (the queue is not persisted).
