/** The camera status machine (src/health/camera-status.ts) and a reading of the
  * sample history that says what its answer means. */
module CameraStatus {
  import opened Options

  datatype HealthStatus = ONLINE | DEGRADED | OFFLINE | UNKNOWN

  datatype NetworkCheck = PASSED | FAILED | NOT_APPLICABLE

  datatype HealthSample = HealthSample(
    networkCheck: NetworkCheck,
    latencyMs: Option<real>,
    streamReady: bool,
    bitrateKbps: Option<int>)

  datatype StatusMemory = StatusMemory(
    status: HealthStatus,
    consecutiveFailures: nat,
    unhealthySince: Option<int>,
    offlineSince: Option<int>)

  /** Why a sample failed; the source renders each as a sentence. */
  datatype Reason =
    | NoReason
    | HandshakeFailed
    | HighLatency(ms: real)
    | StreamNotReady
    | LowBitrate(kbps: Option<int>)

  datatype Verdict = Verdict(memory: StatusMemory, reason: Reason, outageDurationMs: Option<int>)

  const INITIAL_STATUS := StatusMemory(UNKNOWN, 0, None, None)
  const HIGH_LATENCY_MS := 500.0
  const MIN_BITRATE_KBPS := 50
  const OFFLINE_AFTER_MS := 30_000

  predicate Reachable(sample: HealthSample) {
    sample.networkCheck == NOT_APPLICABLE || sample.networkCheck == PASSED
  }

  predicate FastEnough(sample: HealthSample) {
    || sample.networkCheck == NOT_APPLICABLE
    || (Reachable(sample) && sample.latencyMs.Some? && sample.latencyMs.value < HIGH_LATENCY_MS)
  }

  predicate Starved(sample: HealthSample) {
    sample.bitrateKbps.Some? && sample.bitrateKbps.value <= MIN_BITRATE_KBPS
  }

  predicate Healthy(sample: HealthSample) {
    FastEnough(sample) && sample.streamReady && !Starved(sample)
  }

  predicate Failing(status: HealthStatus) {
    status == OFFLINE || status == DEGRADED
  }

  function ReasonFor(sample: HealthSample): Reason {
    if !Reachable(sample) then HandshakeFailed
    else if sample.latencyMs.Some? && sample.latencyMs.value >= HIGH_LATENCY_MS then HighLatency(sample.latencyMs.value)
    else if !sample.streamReady then StreamNotReady
    else LowBitrate(sample.bitrateKbps)
  }

  function NextCameraStatus(memory: StatusMemory, sample: HealthSample, now: int): Verdict {
    if Healthy(sample) then
      Verdict(
        StatusMemory(ONLINE, 0, None, None),
        NoReason,
        if memory.unhealthySince.Some? then Some(now - memory.unhealthySince.value) else None)
    else
      var failures := memory.consecutiveFailures + 1;
      var unhealthySince := memory.unhealthySince.Or(now);
      var confirmed := failures >= 2;
      if !Reachable(sample) then
        var offlineSince := memory.offlineSince.Or(now);
        var status :=
          if confirmed && now - offlineSince >= OFFLINE_AFTER_MS then OFFLINE
          else if confirmed then DEGRADED
          else memory.status;
        Verdict(StatusMemory(status, failures, Some(unhealthySince), Some(offlineSince)), ReasonFor(sample), None)
      else
        Verdict(
          StatusMemory(if confirmed then DEGRADED else memory.status, failures, Some(unhealthySince), None),
          ReasonFor(sample),
          None)
  }

  // ---------------------------------------------------------------------
  // What a history of samples says
  // ---------------------------------------------------------------------

  datatype Poll = Poll(sample: HealthSample, at: int)

  /** The machine run over a whole history from its initial memory. */
  function RunStatus(history: seq<Poll>): StatusMemory {
    if history == [] then INITIAL_STATUS
    else
      var last := history[|history| - 1];
      NextCameraStatus(RunStatus(history[..|history| - 1]), last.sample, last.at).memory
  }

  /** The last `k` polls are exactly the trailing run of polls whose sample fails `ok`. */
  ghost predicate IsTrailingRun(history: seq<Poll>, ok: HealthSample -> bool, k: nat) {
    && k <= |history|
    && (forall i :: |history| - k <= i < |history| ==> !ok(history[i].sample))
    && (k < |history| ==> ok(history[|history| - k - 1].sample))
  }

  /** Length of the trailing run of polls whose sample fails `ok`. */
  function TrailingRun(history: seq<Poll>, ok: HealthSample -> bool): (k: nat)
    ensures IsTrailingRun(history, ok, k)
  {
    if history == [] || ok(history[|history| - 1].sample) then 0
    else
      var rest := TrailingRun(history[..|history| - 1], ok);
      assert forall i :: 0 <= i < |history| - 1 ==> history[..|history| - 1][i] == history[i];
      1 + rest
  }

  lemma OneMoreFails(history: seq<Poll>, ok: HealthSample -> bool)
    requires history != []
    ensures TrailingRun(history, ok)
            == if ok(history[|history| - 1].sample) then 0 else 1 + TrailingRun(history[..|history| - 1], ok)
  {
  }

  function FailRun(history: seq<Poll>): nat {
    TrailingRun(history, Healthy)
  }

  function UnreachableRun(history: seq<Poll>): nat {
    TrailingRun(history, Reachable)
  }

  /** When the trailing run of length `k` began. */
  function RunStart(history: seq<Poll>, k: nat): (since: Option<int>)
    requires k <= |history|
  {
    if k == 0 then None else Some(history[|history| - k].at)
  }

  /** The status as an operator would read it off the history, without any state. */
  function StatusReading(history: seq<Poll>): HealthStatus {
    var failing := FailRun(history);
    var unreachable := UnreachableRun(history);
    if failing == 0 then (if history == [] then UNKNOWN else ONLINE)
    else if failing == 1 then (if |history| == 1 then UNKNOWN else ONLINE)
    else if unreachable > 0
            && history[|history| - 1].at - history[|history| - unreachable].at >= OFFLINE_AFTER_MS then OFFLINE
    else DEGRADED
  }

  lemma RunsFit(history: seq<Poll>)
    ensures FailRun(history) <= |history| && UnreachableRun(history) <= |history|
  {
  }

  /** The incremental machine and the reading of the history never disagree, in any field. */
  lemma {:induction false} StatusEqualsReading(history: seq<Poll>)
    ensures RunStatus(history) == StatusMemory(
                                    StatusReading(history),
                                    FailRun(history),
                                    RunStart(history, FailRun(history)),
                                    RunStart(history, UnreachableRun(history)))
  {
    if history == [] {
    } else {
      hide FastEnough, ReasonFor, TrailingRun, IsTrailingRun, Starved;
      var before := history[..|history| - 1];
      StatusEqualsReading(before);
      var last := history[|history| - 1].sample;
      OneMoreFails(history, Healthy);
      OneMoreFails(history, Reachable);
      RunsFit(history);
    }
  }

  /** A good sample: the stream is ready and not starved, and the camera, unless it has no TCP probe, answered it within
    * half a second. */
  predicate Good(sample: HealthSample) {
    && sample.streamReady
    && (sample.bitrateKbps.Some? ==> sample.bitrateKbps.value > 50)
    && (sample.networkCheck != NOT_APPLICABLE ==>
          sample.networkCheck == PASSED && sample.latencyMs.Some? && sample.latencyMs.value < 500.0)
  }

  /** The trailing polls from `j` on all failed their handshake, and no longer run of polls did. */
  predicate HandshakesFailFrom(history: seq<Poll>, j: int) {
    && 0 <= j < |history|
    && (forall i :: j <= i < |history| ==> history[i].sample.networkCheck == FAILED)
    && (j > 0 ==> history[j - 1].sample.networkCheck != FAILED)
  }

  /** The four statuses, poll by poll: a camera is offline when its last two samples are bad and its handshakes have
    * failed for at least 30 s, degraded when its last two are bad otherwise, unknown before its first good sample as
    * long as there is one bad sample at most, and online in all other cases. */
  lemma StatusSays(history: seq<Poll>)
    ensures var n, status := |history|, RunStatus(history).status;
            var bad := n >= 2 && !Good(history[n - 1].sample) && !Good(history[n - 2].sample);
            && (status == OFFLINE <==>
                  bad && exists j :: HandshakesFailFrom(history, j) && history[n - 1].at - history[j].at >= 30_000)
            && (status == DEGRADED <==> bad && status != OFFLINE)
            && (status == UNKNOWN <==> n == 0 || (n == 1 && !Good(history[0].sample)))
  {
    GoodIsHealthy();
    StatusEqualsReading(history);
    var n := |history|;
    hide Healthy, Good, RunStatus, TrailingRun;
    var k := UnreachableRun(history);
    if k > 0 {
      assert HandshakesFailFrom(history, n - k);
    }
    if j :| HandshakesFailFrom(history, j) {
      assert !Reachable(history[n - 1].sample);
      assert j == n - k;
    }
  }

  lemma GoodIsHealthy()
    ensures forall sample :: Good(sample) <==> Healthy(sample)
  {
  }

  /** Recovery reports the time since the first sample of the failing run it ends, and only then. */
  lemma RecoveryDuration(history: seq<Poll>, sample: HealthSample, now: int)
    ensures var verdict := NextCameraStatus(RunStatus(history), sample, now);
            verdict.outageDurationMs ==
            if Healthy(sample) && FailRun(history) > 0
            then Some(now - history[|history| - FailRun(history)].at)
            else None
  {
    StatusEqualsReading(history);
  }

  lemma HealthyForgetsFailures(memory: StatusMemory, sample: HealthSample, now: int)
    requires Healthy(sample)
    ensures NextCameraStatus(memory, sample, now).memory.consecutiveFailures == 0
  {
  }

  lemma FirstFailureKeepsStatus(memory: StatusMemory, sample: HealthSample, now: int)
    requires !Healthy(sample) && memory.consecutiveFailures == 0
    ensures NextCameraStatus(memory, sample, now).memory.status == memory.status
  {
  }

  /** A single failing sample never changes the status a camera shows. */
  lemma OneBadSampleChangesNothing(history: seq<Poll>, bad: Poll)
    requires !Healthy(bad.sample)
    requires history == [] || Healthy(history[|history| - 1].sample)
    ensures RunStatus(history + [bad]).status == RunStatus(history).status
  {
    hide Healthy, NextCameraStatus;
    assert (history + [bad])[..|history|] == history;
    var memory := RunStatus(history);
    if history != [] {
      var last := history[|history| - 1];
      HealthyForgetsFailures(RunStatus(history[..|history| - 1]), last.sample, last.at);
    }
    FirstFailureKeepsStatus(memory, bad.sample, bad.at);
  }

  /** What the service's TCP probe delivers: a handshake time exactly when the handshake succeeded. */
  predicate Probed(sample: HealthSample) {
    sample.latencyMs.Some? <==> sample.networkCheck == PASSED
  }

  /** The reason names the first condition of a healthy sample that fails, and never blames one that holds. */
  lemma ReasonNamesTheFault(sample: HealthSample)
    requires !Healthy(sample) && Probed(sample)
    ensures match ReasonFor(sample)
            case NoReason => false
            case HandshakeFailed => !Reachable(sample)
            case HighLatency(ms) => Reachable(sample) && !FastEnough(sample) && sample.latencyMs == Some(ms)
            case StreamNotReady => FastEnough(sample) && !sample.streamReady
            case LowBitrate(kbps) =>
              FastEnough(sample) && sample.streamReady && Starved(sample) && kbps == sample.bitrateKbps
  {
    if Reachable(sample) && !FastEnough(sample) {
      assert sample.latencyMs.Some?;
    }
  }
}
