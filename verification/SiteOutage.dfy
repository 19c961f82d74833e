/** Site link outage detection (src/health/site-outage.ts). */
module SiteOutage {
  import opened Options
  import opened CameraStatus

  type CameraId = string
  type SiteId = string

  const MIN_CAMERAS_FOR_SITE_OUTAGE := 2

  datatype SiteSample = SiteSample(
    cameraId: CameraId,
    siteId: Option<SiteId>,
    status: HealthStatus,
    networkChecked: bool,
    unreachable: bool)

  datatype LinkState = UP | SUSPECTED | DOWN

  datatype SiteTransition =
    | SiteOffline(siteId: SiteId, cameraIds: seq<CameraId>)
    | SiteOnline(siteId: SiteId, cameraIds: seq<CameraId>, outageDurationMs: Option<int>)

  /** A site id the detector considers: the source skips `null` and the empty string alike. */
  predicate RealSite(siteId: Option<SiteId>) {
    siteId.Some? && siteId.value != ""
  }

  predicate Counts(sample: SiteSample) {
    RealSite(sample.siteId) && sample.networkChecked
  }

  /** The network-checked cameras of one site, in the order they were sampled. */
  function Group(samples: seq<SiteSample>, siteId: SiteId): seq<SiteSample> {
    if samples == [] then []
    else
      var rest := Group(samples[..|samples| - 1], siteId);
      var last := samples[|samples| - 1];
      if Counts(last) && last.siteId.value == siteId then rest + [last] else rest
  }

  /** The sites with a network-checked camera, each once, in order of first appearance. */
  function SiteOrder(samples: seq<SiteSample>): seq<SiteId>
  {
    if samples == [] then []
    else
      var rest := SiteOrder(samples[..|samples| - 1]);
      var last := samples[|samples| - 1];
      if Counts(last) && last.siteId.value !in rest then rest + [last.siteId.value] else rest
  }

  ghost predicate Distinct(order: seq<SiteId>) {
    forall i, j :: 0 <= i < j < |order| ==> order[i] != order[j]
  }

  lemma {:induction false} SiteOrderDistinct(samples: seq<SiteSample>)
    ensures Distinct(SiteOrder(samples))
  {
    if samples == [] {
    } else {
      SiteOrderDistinct(samples[..|samples| - 1]);
    }
  }

  lemma {:induction false} SiteOrderMember(samples: seq<SiteSample>, siteId: SiteId)
    ensures siteId in SiteOrder(samples) <==> Group(samples, siteId) != []
  {
    if samples == [] {
    } else {
      SiteOrderMember(samples[..|samples| - 1], siteId);
    }
  }

  predicate AllUnreachable(cameras: seq<SiteSample>) {
    && |cameras| >= MIN_CAMERAS_FOR_SITE_OUTAGE
    && forall i :: 0 <= i < |cameras| ==> cameras[i].unreachable
  }

  predicate AllOffline(cameras: seq<SiteSample>) {
    && AllUnreachable(cameras)
    && forall i :: 0 <= i < |cameras| ==> cameras[i].status == OFFLINE
  }

  function NextLink(previous: LinkState, cameras: seq<SiteSample>): LinkState {
    if previous == DOWN then (if AllUnreachable(cameras) then DOWN else UP)
    else if AllOffline(cameras) then DOWN
    else if AllUnreachable(cameras) then SUSPECTED
    else UP
  }

  function LinkOf(states: map<SiteId, LinkState>, siteId: SiteId): LinkState {
    if siteId in states then states[siteId] else UP
  }

  function CameraIds(cameras: seq<SiteSample>): seq<CameraId> {
    seq(|cameras|, i requires 0 <= i < |cameras| => cameras[i].cameraId)
  }

  /** What one evaluation announces about one site. */
  function Announce(siteId: SiteId, previous: LinkState, since: Option<int>, cameras: seq<SiteSample>, now: int)
    : seq<SiteTransition>
  {
    var next := NextLink(previous, cameras);
    if next == DOWN && previous != DOWN then [SiteOffline(siteId, CameraIds(cameras))]
    else if previous == DOWN && next != DOWN then
      [SiteOnline(siteId, CameraIds(cameras), if since.Some? then Some(now - since.value) else None)]
    else []
  }

  /** Detector memory as a value. */
  datatype Links = Links(states: map<SiteId, LinkState>, downSince: map<SiteId, int>) {
    function Since(siteId: SiteId): Option<int> {
      if siteId in downSince then Some(downSince[siteId]) else None
    }

    /** Down-since is remembered for exactly the sites that are down. */
    ghost predicate Valid() {
      forall s :: s in downSince <==> s in states && states[s] == DOWN
    }
  }

  function NextSince(links: Links, siteId: SiteId, cameras: seq<SiteSample>, now: int): Option<int> {
    var previous := LinkOf(links.states, siteId);
    var next := NextLink(previous, cameras);
    if next == DOWN && previous != DOWN then Some(now)
    else if next != DOWN && previous == DOWN then None
    else links.Since(siteId)
  }

  /** Detector memory after one evaluation: every sampled site advanced, every other forgotten. */
  function NextLinks(links: Links, samples: seq<SiteSample>, now: int): Links {
    Links(
      map s | s in SiteOrder(samples) :: NextLink(LinkOf(links.states, s), Group(samples, s)),
      map s | s in SiteOrder(samples) && NextSince(links, s, Group(samples, s), now).Some?
            :: NextSince(links, s, Group(samples, s), now).value)
  }

  /** Everything announced about the first sites of `order`. */
  function Announcements(links: Links, order: seq<SiteId>, samples: seq<SiteSample>, now: int)
    : seq<SiteTransition>
  {
    if order == [] then []
    else
      var s := order[|order| - 1];
      Announcements(links, order[..|order| - 1], samples, now)
      + Announce(s, LinkOf(links.states, s), links.Since(s), Group(samples, s), now)
  }

  /** Mid-evaluation: a site among the first `k` of `order` is as after the evaluation, any other as before it. */
  ghost predicate SiteEvaluated(
    before: Links, now: Links, samples: seq<SiteSample>, order: seq<SiteId>, k: nat, s: SiteId, at: int)
    requires k <= |order|
  {
    if s in order[..k] then
      && s in now.states
      && now.states[s] == NextLink(LinkOf(before.states, s), Group(samples, s))
      && now.Since(s) == NextSince(before, s, Group(samples, s), at)
    else
      && (s in now.states <==> s in before.states)
      && LinkOf(now.states, s) == LinkOf(before.states, s)
      && now.Since(s) == before.Since(s)
  }

  lemma DistinctPrefix(order: seq<SiteId>, k: nat)
    requires k < |order| && Distinct(order)
    ensures order[..k + 1] == order[..k] + [order[k]] && order[..k + 1][..k] == order[..k]
    ensures order[k] !in order[..k]
    ensures Distinct(order[..k])
  {
  }

  ghost predicate AllEvaluated(
    before: Links, now: Links, samples: seq<SiteSample>, order: seq<SiteId>, k: nat, at: int)
    requires k <= |order|
  {
    forall s :: SiteEvaluated(before, now, samples, order, k, s, at)
  }

  lemma NothingEvaluated(links: Links, samples: seq<SiteSample>, order: seq<SiteId>, at: int)
    ensures AllEvaluated(links, links, samples, order, 0, at)
  {
  }

  lemma NotEvaluatedYet(
    before: Links, now: Links, samples: seq<SiteSample>, order: seq<SiteId>, k: nat, s: SiteId, at: int)
    requires k <= |order| && AllEvaluated(before, now, samples, order, k, at) && s !in order[..k]
    ensures LinkOf(now.states, s) == LinkOf(before.states, s) && now.Since(s) == before.Since(s)
  {
    assert SiteEvaluated(before, now, samples, order, k, s, at);
  }

  lemma EvaluatedStep(
    before: Links, mid: Links, after: Links, samples: seq<SiteSample>, order: seq<SiteId>, k: nat, done: nat, at: int)
    requires Distinct(order) && k < |order| && done == k + 1
    requires AllEvaluated(before, mid, samples, order, k, at)
    requires after.states == mid.states[order[k] := NextLink(LinkOf(mid.states, order[k]), Group(samples, order[k]))]
    requires after.Since(order[k]) == NextSince(mid, order[k], Group(samples, order[k]), at)
    requires forall s :: s != order[k] ==> after.Since(s) == mid.Since(s)
    ensures AllEvaluated(before, after, samples, order, done, at)
  {
    DistinctPrefix(order, k);
    forall s
      ensures SiteEvaluated(before, after, samples, order, done, s, at)
    {
      assert SiteEvaluated(before, mid, samples, order, k, s, at);
    }
  }

  lemma EvaluatedMeans(before: Links, now: Links, samples: seq<SiteSample>, order: seq<SiteId>, at: int, s: SiteId)
    requires AllEvaluated(before, now, samples, order, |order|, at) && s in order
    ensures && s in now.states
            && now.states[s] == NextLink(LinkOf(before.states, s), Group(samples, s))
            && now.Since(s) == NextSince(before, s, Group(samples, s), at)
  {
    assert order[..|order|] == order;
    assert SiteEvaluated(before, now, samples, order, |order|, s, at);
  }

  /** Dropping the sites that were not sampled leaves exactly the next memory. */
  lemma EvaluatedAll(before: Links, mid: Links, samples: seq<SiteSample>, order: seq<SiteId>, at: int)
    requires order == SiteOrder(samples) && AllEvaluated(before, mid, samples, order, |order|, at)
    ensures (map s | s in mid.states && s in order :: mid.states[s]) == NextLinks(before, samples, at).states
    ensures (map s | s in mid.downSince && s in order :: mid.downSince[s]) == NextLinks(before, samples, at).downSince
  {
    EvaluatedStates(before, mid, samples, order, at);
    EvaluatedSince(before, mid, samples, order, at);
  }

  lemma EvaluatedStates(before: Links, mid: Links, samples: seq<SiteSample>, order: seq<SiteId>, at: int)
    requires order == SiteOrder(samples) && AllEvaluated(before, mid, samples, order, |order|, at)
    ensures (map s | s in mid.states && s in order :: mid.states[s]) == NextLinks(before, samples, at).states
  {
    hide AllEvaluated, SiteOrder, Group, NextLink, NextSince;
    forall s | s in order
      ensures s in mid.states && mid.states[s] == NextLink(LinkOf(before.states, s), Group(samples, s))
    {
      EvaluatedMeans(before, mid, samples, order, at, s);
    }
  }

  lemma EvaluatedSince(before: Links, mid: Links, samples: seq<SiteSample>, order: seq<SiteId>, at: int)
    requires order == SiteOrder(samples) && AllEvaluated(before, mid, samples, order, |order|, at)
    ensures (map s | s in mid.downSince && s in order :: mid.downSince[s]) == NextLinks(before, samples, at).downSince
  {
    hide AllEvaluated, SiteOrder, Group, NextLink, NextSince;
    forall s | s in order
      ensures mid.Since(s) == NextSince(before, s, Group(samples, s), at)
    {
      EvaluatedMeans(before, mid, samples, order, at, s);
    }
  }

  lemma ValidMeans(links: Links)
    requires links.Valid()
    ensures forall s :: links.Since(s).Some? <==> LinkOf(links.states, s) == DOWN
  {
  }

  lemma NextLinksValid(before: Links, samples: seq<SiteSample>, at: int)
    requires before.Valid()
    ensures NextLinks(before, samples, at).Valid()
  {
    var next := NextLinks(before, samples, at);
    forall s
      ensures s in next.downSince <==> s in next.states && next.states[s] == DOWN
    {
      assert s in before.downSince <==> s in before.states && before.states[s] == DOWN;
    }
  }

  class SiteOutageDetector {
    var downSince: map<SiteId, int>
    var states: map<SiteId, LinkState>

    function Memory(): Links
      reads this
    {
      Links(states, downSince)
    }

    constructor ()
      ensures Memory() == Links(map[], map[])
    {
      downSince, states := map[], map[];
    }

    method Evaluate(samples: seq<SiteSample>, now: int) returns (transitions: seq<SiteTransition>)
      requires Memory().Valid()
      modifies this
      ensures Memory() == NextLinks(old(Memory()), samples, now)
      ensures Memory().Valid()
      ensures transitions == Announcements(old(Memory()), SiteOrder(samples), samples, now)
    {
      hide SiteOrder, Group, AllEvaluated, NextSince, NextLink, Announce, Distinct, NextLinks;
      var bySite, order := GroupBySite(samples);
      SiteOrderDistinct(samples);
      transitions := [];
      NothingEvaluated(Memory(), samples, order, now);
      ValidMeans(Memory());
      for k := 0 to |order|
        invariant AllEvaluated(old(Memory()), Memory(), samples, order, k, now)
        invariant transitions == Announcements(old(Memory()), order[..k], samples, now)
      {
        ghost var mid := Memory();
        var siteId := order[k];
        DistinctPrefix(order, k);
        NotEvaluatedYet(old(Memory()), mid, samples, order, k, siteId, now);
        var announced := Advance(siteId, bySite[siteId], now);
        transitions := transitions + announced;
        EvaluatedStep(old(Memory()), mid, Memory(), samples, order, k, k + 1, now);
      }
      assert order[..|order|] == order;
      EvaluatedAll(old(Memory()), Memory(), samples, order, now);
      NextLinksValid(old(Memory()), samples, now);
      // Sites without a network-checked camera any more are forgotten
      states := map s | s in states && s in order :: states[s];
      downSince := map s | s in downSince && s in order :: downSince[s];
    }

    /** One site's part of an evaluation. */
    method Advance(siteId: SiteId, cameras: seq<SiteSample>, now: int) returns (transitions: seq<SiteTransition>)
      requires Memory().Since(siteId).Some? <==> LinkOf(states, siteId) == DOWN
      modifies this
      ensures states == old(states)[siteId := NextLink(LinkOf(old(states), siteId), cameras)]
      ensures states[siteId] == DOWN <==>
                && |cameras| >= 2 && (forall i :: 0 <= i < |cameras| ==> cameras[i].unreachable)
                && (LinkOf(old(states), siteId) == DOWN
                    || forall i :: 0 <= i < |cameras| ==> cameras[i].status == OFFLINE)
      ensures states[siteId] == SUSPECTED <==>
                && |cameras| >= 2 && (forall i :: 0 <= i < |cameras| ==> cameras[i].unreachable)
                && states[siteId] != DOWN
      ensures Memory().Since(siteId) == NextSince(old(Memory()), siteId, cameras, now)
      ensures forall s :: s != siteId ==> Memory().Since(s) == old(Memory()).Since(s)
      ensures transitions == Announce(siteId, LinkOf(old(states), siteId), old(Memory()).Since(siteId), cameras, now)
    {
      var previous := LinkOf(states, siteId);
      var next := NextLink(previous, cameras);
      transitions := [];
      if next == DOWN && previous != DOWN {
        downSince := downSince[siteId := now];
        transitions := [SiteOffline(siteId, CameraIds(cameras))];
      } else if previous == DOWN && next != DOWN {
        var since := if siteId in downSince then Some(now - downSince[siteId]) else None;
        downSince := downSince - {siteId};
        transitions := [SiteOnline(siteId, CameraIds(cameras), since)];
      }
      states := states[siteId := next];
    }

    method GroupBySite(samples: seq<SiteSample>)
      returns (bySite: map<SiteId, seq<SiteSample>>, order: seq<SiteId>)
      ensures order == SiteOrder(samples)
      ensures forall s :: s in bySite <==> s in order
      ensures forall s :: s in bySite ==> bySite[s] == Group(samples, s)
    {
      bySite, order := map[], [];
      for i := 0 to |samples|
        invariant order == SiteOrder(samples[..i])
        invariant forall s :: s in bySite <==> s in order
        invariant forall s :: s in bySite ==> bySite[s] == Group(samples[..i], s)
      {
        assert samples[..i + 1][..i] == samples[..i];
        var sample := samples[i];
        if Counts(sample) {
          var siteId := sample.siteId.value;
          SiteOrderMember(samples[..i], siteId);
          if siteId in bySite {
            bySite := bySite[siteId := bySite[siteId] + [sample]];
          } else {
            bySite := bySite[siteId := [sample]];
            order := order + [siteId];
          }
        }
      }
      assert samples[..|samples|] == samples;
    }
  }

  // ---------------------------------------------------------------------
  // What the detector guarantees
  // ---------------------------------------------------------------------

  /** What an evaluation announces about one site only depends on that site. */
  function About(transitions: seq<SiteTransition>, siteId: SiteId): seq<SiteTransition> {
    if transitions == [] then []
    else
      var rest := About(transitions[..|transitions| - 1], siteId);
      var last := transitions[|transitions| - 1];
      if last.siteId == siteId then rest + [last] else rest
  }

  lemma {:induction false} AboutConcat(a: seq<SiteTransition>, b: seq<SiteTransition>, siteId: SiteId)
    ensures About(a + b, siteId) == About(a, siteId) + About(b, siteId)
  {
    if b == [] {
      assert a + b == a;
    } else {
      assert (a + b)[..|a + b| - 1] == a + b[..|b| - 1];
      AboutConcat(a, b[..|b| - 1], siteId);
    }
  }

  /** Each site is announced at most once per evaluation, whatever the other sites do. */
  lemma {:induction false} AnnouncementsAboutSite(
    links: Links, order: seq<SiteId>, samples: seq<SiteSample>, now: int, siteId: SiteId)
    requires Distinct(order)
    ensures About(Announcements(links, order, samples, now), siteId) ==
            if siteId in order
            then Announce(siteId, LinkOf(links.states, siteId), links.Since(siteId), Group(samples, siteId), now)
            else []
  {
    if order == [] {
    } else {
      var k := |order| - 1;
      var s := order[k];
      DistinctPrefix(order, k);
      AnnouncementsAboutSite(links, order[..k], samples, now, siteId);
      var mine := Announce(s, LinkOf(links.states, s), links.Since(s), Group(samples, s), now);
      AboutConcat(Announcements(links, order[..k], samples, now), mine, siteId);
      AboutAnnounce(s, LinkOf(links.states, s), links.Since(s), Group(samples, s), now, siteId);
      assert order == order[..k] + [s];
    }
  }

  lemma AboutAnnounce(
    s: SiteId, previous: LinkState, since: Option<int>, cameras: seq<SiteSample>, now: int, siteId: SiteId)
    ensures About(Announce(s, previous, since, cameras, now), siteId)
            == if s == siteId then Announce(s, previous, since, cameras, now) else []
  {
    var mine := Announce(s, previous, since, cameras, now);
    if mine != [] {
      assert mine[..0] == [];
      assert About(mine[..0], siteId) == [];
    }
  }
}
