/** The webhook retry queue (src/webhooks/webhook-dispatcher.service.ts): enqueueEvent, processQueue and
  * the callbacks of a delivery, interleaved in any order. */
module WebhookQueue {

  const MAX_QUEUE_DEPTH := 500
  const MAX_CONCURRENT_DELIVERIES := 5
  const MAX_ATTEMPTS := 3

  type DeliveryId = string

  /** What a delivery is made of, fixed when it is enqueued: whether JSON.stringify can write the event's data, and
    * whether the HMAC accepts the endpoint's secret. */
  datatype Payload = Payload(text: string, serializable: bool, signable: bool)

  predicate Sendable(payload: Payload) {
    payload.serializable && payload.signable
  }

  datatype Job = Job(deliveryId: DeliveryId, payload: Payload, attempts: nat, maxAttempts: nat, nextAttemptTime: int)

  /** How one delivery attempt ends: an HTTP status, no response (the SSRF guard, a timeout, the network),
    * or an exception outside executeDelivery's own try, while the request is written and signed. */
  datatype Attempt = Response(status: int) | NoResponse | Threw

  /** Only a sendable job gets as far as a response, and only another one can throw. */
  predicate Possible(job: Job, a: Attempt) {
    match a
    case Response(_) => Sendable(job.payload)
    case NoResponse => true
    case Threw => !Sendable(job.payload)
  }

  predicate Succeeded(a: Attempt) {
    a.Response? && 200 <= a.status < 300
  }

  /** A client error other than 429 is not tried again. */
  predicate Terminal(a: Attempt) {
    a.Response? && 400 <= a.status < 500 && a.status != 429
  }

  // ---------------------------------------------------------------------
  // Backoff
  // ---------------------------------------------------------------------

  function Pow2(n: nat): nat {
    if n == 0 then 1 else 2 * Pow2(n - 1)
  }

  /** Math.round. */
  function Round(x: real): int {
    (x + 0.5).Floor
  }

  function Jittered(baseDelay: int, random: real): real {
    baseDelay as real + (random * 0.4 - 0.2) * baseDelay as real
  }

  /** Exponential backoff with jitter; `random` is Math.random(). */
  function Delay(attempts: nat, random: real): int {
    var delay := Round(Jittered(Pow2(attempts) * 1000, random));
    if delay < 500 then 500 else delay
  }

  lemma {:induction false} Pow2Positive(n: nat)
    ensures Pow2(n) >= 1
  {
    if n == 0 {
    } else {
      Pow2Positive(n - 1);
    }
  }

  lemma DelayWithinJitter(attempts: nat, random: real)
    requires 0.0 <= random < 1.0 && attempts >= 1
    ensures 800 * Pow2(attempts) <= Delay(attempts, random) <= 1200 * Pow2(attempts)
  {
    Pow2Positive(attempts - 1);
    var p := Pow2(attempts);
    assert p == 2 * Pow2(attempts - 1);
    hide Pow2, Round, Jittered;
    JitteredWithin(p * 1000, random);
    RoundWithin(Jittered(p * 1000, random), 800 * p, 1200 * p);
  }

  lemma Pow2Doubles(n: nat)
    ensures Pow2(n) == if n == 0 then 1 else if n == 1 then 2 else if n == 2 then 4 else 2 * Pow2(n - 1)
  {
    if n == 2 {
      assert Pow2(1) == 2 * Pow2(0);
    }
  }

  /** The delay is 2^attempts seconds, scaled by 0.8 to 1.2 as the random number says, and rounded to a millisecond. */
  lemma DelayIs(attempts: nat, random: real)
    requires 0.0 <= random < 1.0
    ensures var exact := (1000 * Pow2(attempts)) as real * (0.8 + 0.4 * random);
            exact - 0.5 < Delay(attempts, random) as real <= exact + 0.5
  {
    Pow2Positive(attempts);
    var base := (1000 * Pow2(attempts)) as real;
    hide Pow2;
    assert base >= 1000.0;
    ScaleWithin(random * 0.4 - 0.2, base);
    assert Jittered(Pow2(attempts) * 1000, random) == base + (random * 0.4 - 0.2) * base;
    assert base * (0.8 + 0.4 * random) == base + (random * 0.4 - 0.2) * base;
  }

  lemma JitteredWithin(baseDelay: int, random: real)
    requires 0.0 <= random < 1.0 && baseDelay >= 0
    ensures 0.8 * baseDelay as real <= Jittered(baseDelay, random) <= 1.2 * baseDelay as real
  {
    ScaleWithin(random * 0.4 - 0.2, baseDelay as real);
  }

  lemma RoundWithin(x: real, low: int, high: int)
    requires low as real <= x <= high as real
    ensures low <= Round(x) <= high
  {
  }

  lemma ScaleWithin(factor: real, base: real)
    requires -0.2 <= factor <= 0.2 && base >= 0.0
    ensures -0.2 * base <= factor * base <= 0.2 * base
  {
  }

  /** A later retry always waits longer than an earlier one, whatever the jitter. */
  lemma BackoffGrows(attempts: nat, random: real, later: real)
    requires attempts >= 1 && 0.0 <= random < 1.0 && 0.0 <= later < 1.0
    ensures Delay(attempts, random) < Delay(attempts + 1, later)
  {
    hide Delay;
    Pow2Positive(attempts);
    DelayWithinJitter(attempts, random);
    DelayWithinJitter(attempts + 1, later);
  }

  // ---------------------------------------------------------------------
  // The dispatcher and its steps
  // ---------------------------------------------------------------------

  /** `inFlight` holds the attempts whose promise is unresolved; `finishing` counts the resolved ones whose
    * finally callback has not run. Nothing catches a rejected delivery: once one has been rejected the process is
    * `doomed`, and Node ends it. The other fields are history. */
  datatype State = State(
    queue: seq<Job>,
    inFlight: seq<Job>,
    finishing: nat,
    accepted: map<DeliveryId, Payload>,
    delivered: multiset<DeliveryId>,
    terminal: multiset<DeliveryId>,
    exhausted: multiset<DeliveryId>,
    lost: multiset<DeliveryId>,
    started: nat,
    doomed: bool,
    running: bool)
  {
    /** activeDeliveries. */
    function Active(): nat {
      |inFlight| + finishing
    }
  }

  const INITIAL := State([], [], 0, map[], multiset{}, multiset{}, multiset{}, multiset{}, 0, false, true)

  function Without<T>(s: seq<T>, i: nat): (r: seq<T>)
    requires i < |s|
    ensures |r| == |s| - 1
  {
    s[..i] + s[i + 1..]
  }

  predicate Ready(job: Job, now: int) {
    job.nextAttemptTime <= now
  }

  /** The first job that is due, or the length of the queue. */
  function FirstReady(queue: seq<Job>, now: int): (k: nat)
    ensures k <= |queue|
    ensures forall i :: 0 <= i < k ==> !Ready(queue[i], now)
    ensures k < |queue| ==> Ready(queue[k], now)
  {
    if queue == [] || Ready(queue[0], now) then 0 else 1 + FirstReady(queue[1..], now)
  }

  /** A delivery starts: its attempt is counted before the first await. */
  function Start(s: State, k: nat): State
    requires k < |s.queue|
  {
    var job := s.queue[k];
    s.(queue := Without(s.queue, k), inFlight := s.inFlight + [job.(attempts := job.attempts + 1)],
        started := s.started + 1)
  }

  function Process(s: State, now: int): State
    decreases MAX_CONCURRENT_DELIVERIES - s.Active()
  {
    var k := FirstReady(s.queue, now);
    if s.Active() >= MAX_CONCURRENT_DELIVERIES || k == |s.queue| then s else Process(Start(s, k), now)
  }

  function Enqueue(s: State, id: DeliveryId, payload: Payload, now: int): State {
    if |s.queue| >= MAX_QUEUE_DEPTH then s
    else
      var job := Job(id, payload, 0, MAX_ATTEMPTS, now);
      Process(s.(queue := s.queue + [job], accepted := s.accepted[id := payload]), now)
  }

  /** The promise of attempt `i` resolves, or rejects and skips the callback. */
  function Settle(s: State, i: nat, a: Attempt, random: real, now: int): State
    requires i < |s.inFlight|
  {
    var job := s.inFlight[i];
    var rest := s.(inFlight := Without(s.inFlight, i), finishing := s.finishing + 1);
    if a.Threw? then rest.(lost := s.lost + multiset{job.deliveryId}, doomed := true)
    else if Succeeded(a) then rest.(delivered := s.delivered + multiset{job.deliveryId})
    else if Terminal(a) then rest.(terminal := s.terminal + multiset{job.deliveryId})
    else if job.attempts < job.maxAttempts then
      rest.(queue := s.queue + [job.(nextAttemptTime := now + Delay(job.attempts, random))])
    else rest.(exhausted := s.exhausted + multiset{job.deliveryId})
  }

  function Finally(s: State, now: int): State
    requires s.finishing > 0
  {
    Process(s.(finishing := s.finishing - 1), now)
  }

  /** The process ends, and with it everything that was only in memory. */
  function Exit(s: State): State {
    s.(queue := [], inFlight := [], finishing := 0, lost := s.lost + Ids(s.queue) + Ids(s.inFlight), running := false)
  }

  datatype Step =
    | Event(id: DeliveryId, payload: Payload, now: int)
    | Timer(now: int)
    | Settled(i: nat, attempt: Attempt, random: real, now: int)
    | Finished(now: int)
    | Exited

  /** A delivery id is a fresh UUID; a callback belongs to a delivery that is waiting for it. */
  predicate Enabled(s: State, step: Step) {
    && s.running
    && match step
       case Event(id, _, _) => id !in s.accepted
       case Timer(_) => true
       case Settled(i, a, _, _) => i < |s.inFlight| && Possible(s.inFlight[i], a)
       case Finished(_) => s.finishing > 0
       case Exited => s.doomed
  }

  /** While the process runs, a fresh event and the timer can come at any time, a finally callback once a delivery has
    * been resolved, and every attempt in flight can end: in no response, a sendable one in any status, and only another
    * one by throwing, after which the process may end. */
  lemma EveryEndIsEnabled(s: State, i: nat, a: Attempt, random: real, now: int)
    requires s.running && i < |s.inFlight|
    ensures var payload := s.inFlight[i].payload;
            Enabled(s, Settled(i, a, random, now)) <==>
              if payload.serializable && payload.signable then !a.Threw? else !a.Response?
    ensures a.Threw? ==> Enabled(Settle(s, i, a, random, now), Exited)
    ensures Enabled(s, Timer(now)) && Enabled(Settle(s, i, a, random, now), Finished(now))
    ensures forall id, payload :: id !in s.accepted ==> Enabled(s, Event(id, payload, now))
  {
  }

  function Apply(s: State, step: Step): State
    requires Enabled(s, step)
  {
    match step
    case Event(id, payload, now) => Enqueue(s, id, payload, now)
    case Timer(now) => Process(s, now)
    case Settled(i, attempt, random, now) => Settle(s, i, attempt, random, now)
    case Finished(now) => Finally(s, now)
    case Exited => Exit(s)
  }

  ghost predicate Follows(states: seq<State>, steps: seq<Step>, i: nat)
    requires i < |steps| && |states| == |steps| + 1
  {
    Enabled(states[i], steps[i]) && states[i + 1] == Apply(states[i], steps[i])
  }

  ghost predicate IsRun(states: seq<State>, steps: seq<Step>) {
    |states| == |steps| + 1 && forall i :: 0 <= i < |steps| ==> Follows(states, steps, i)
  }

  // ---------------------------------------------------------------------
  // What every step keeps
  // ---------------------------------------------------------------------

  function Ids(jobs: seq<Job>): multiset<DeliveryId> {
    if jobs == [] then multiset{} else Ids(jobs[..|jobs| - 1]) + multiset{jobs[|jobs| - 1].deliveryId}
  }

  /** Every place a delivery can be, with multiplicity. */
  function Places(s: State): multiset<DeliveryId> {
    Ids(s.queue) + Ids(s.inFlight) + Ended(s)
  }

  function Ended(s: State): multiset<DeliveryId> {
    s.delivered + s.terminal + s.exhausted + s.lost
  }

  ghost predicate JobsKept(jobs: seq<Job>, accepted: map<DeliveryId, Payload>, least: nat, most: nat) {
    forall i :: 0 <= i < |jobs| ==> JobKept(jobs[i], accepted, least, most)
  }

  /** The job is the one that was accepted, attempted between `least` and `most` times. */
  ghost predicate JobKept(job: Job, accepted: map<DeliveryId, Payload>, least: nat, most: nat) {
    && job.maxAttempts == MAX_ATTEMPTS && least <= job.attempts <= most
    && job.deliveryId in accepted && job.payload == accepted[job.deliveryId]
  }

  ghost predicate Inv(s: State) {
    && Places(s) == multiset(s.accepted.Keys)
    && s.Active() <= MAX_CONCURRENT_DELIVERIES
    && |s.queue| + |s.inFlight| <= MAX_QUEUE_DEPTH + MAX_CONCURRENT_DELIVERIES
    && JobsKept(s.queue, s.accepted, 0, MAX_ATTEMPTS - 1)
    && JobsKept(s.inFlight, s.accepted, 1, MAX_ATTEMPTS)
    && s.started + Remaining(s.queue) + Remaining(s.inFlight) <= MAX_ATTEMPTS * |s.accepted|
  }

  /** The attempts the jobs have left. */
  function Remaining(jobs: seq<Job>): int {
    if jobs == [] then 0
    else
      var last := jobs[|jobs| - 1];
      Remaining(jobs[..|jobs| - 1]) + last.maxAttempts - last.attempts
  }

  lemma Appended(jobs: seq<Job>, job: Job)
    ensures Ids(jobs + [job]) == Ids(jobs) + multiset{job.deliveryId}
    ensures Remaining(jobs + [job]) == Remaining(jobs) + job.maxAttempts - job.attempts
  {
    assert (jobs + [job])[..|jobs|] == jobs;
  }

  lemma WithoutOfInit(jobs: seq<Job>, i: nat)
    requires i + 1 < |jobs|
    ensures var last := |jobs| - 1;
      Without(jobs, i) == Without(jobs[..last], i) + [jobs[last]] && jobs == jobs[..last] + [jobs[last]]
  {
  }

  lemma {:induction false} Removed(jobs: seq<Job>, i: nat)
    requires i < |jobs|
    ensures Ids(jobs) == Ids(Without(jobs, i)) + multiset{jobs[i].deliveryId}
    ensures Remaining(jobs) == Remaining(Without(jobs, i)) + jobs[i].maxAttempts - jobs[i].attempts
  {
    hide Without;
    var last := |jobs| - 1;
    var init := jobs[..last];
    if i == last {
      WithoutLast(jobs);
    } else {
      Removed(init, i);
      WithoutOfInit(jobs, i);
      Appended(Without(init, i), jobs[last]);
    }
  }

  lemma WithoutLast(jobs: seq<Job>)
    requires jobs != []
    ensures Without(jobs, |jobs| - 1) == jobs[..|jobs| - 1]
  {
  }

  lemma {:induction false} StartKeeps(s: State, k: nat)
    requires Inv(s) && k < |s.queue| && s.Active() < MAX_CONCURRENT_DELIVERIES
    ensures Inv(Start(s, k)) && Start(s, k).accepted == s.accepted
  {
    hide Ids, Remaining;
    var job := s.queue[k];
    Removed(s.queue, k);
    Appended(s.inFlight, job.(attempts := job.attempts + 1));
    assert JobKept(job, s.accepted, 0, MAX_ATTEMPTS - 1);
  }

  lemma {:induction false} ProcessKeeps(s: State, now: int)
    requires Inv(s)
    ensures Inv(Process(s, now))
    decreases MAX_CONCURRENT_DELIVERIES - s.Active()
  {
    hide Inv;
    var k := FirstReady(s.queue, now);
    if s.Active() < MAX_CONCURRENT_DELIVERIES && k < |s.queue| {
      StartKeeps(s, k);
      ProcessKeeps(Start(s, k), now);
    }
  }

  lemma StillKept(
    jobs: seq<Job>, accepted: map<DeliveryId, Payload>, id: DeliveryId, payload: Payload, least: nat, most: nat)
    requires JobsKept(jobs, accepted, least, most) && id !in accepted
    ensures JobsKept(jobs, accepted[id := payload], least, most)
  {
  }

  lemma OneMoreKept(jobs: seq<Job>, job: Job, accepted: map<DeliveryId, Payload>, least: nat, most: nat)
    requires JobsKept(jobs, accepted, least, most) && JobKept(job, accepted, least, most)
    ensures JobsKept(jobs + [job], accepted, least, most)
  {
  }

  lemma OneMoreAccepted(accepted: map<DeliveryId, Payload>, id: DeliveryId, payload: Payload)
    requires id !in accepted
    ensures |accepted[id := payload]| == |accepted| + 1
    ensures multiset(accepted[id := payload].Keys) == multiset(accepted.Keys) + multiset{id}
  {
    var more := accepted[id := payload];
    assert more.Keys == accepted.Keys + {id};
    assert |more.Keys| == |accepted.Keys| + 1;
  }

  lemma EnqueueKeeps(s: State, id: DeliveryId, payload: Payload, now: int)
    requires Inv(s) && id !in s.accepted
    ensures Inv(Enqueue(s, id, payload, now))
  {
    hide Inv, Process;
    if |s.queue| < MAX_QUEUE_DEPTH {
      var job := Job(id, payload, 0, MAX_ATTEMPTS, now);
      AcceptKeeps(s, job);
      ProcessKeeps(s.(queue := s.queue + [job], accepted := s.accepted[id := payload]), now);
    }
  }

  lemma AcceptKeeps(s: State, job: Job)
    requires Inv(s) && job.deliveryId !in s.accepted && |s.queue| < MAX_QUEUE_DEPTH
    requires job.attempts == 0 && job.maxAttempts == MAX_ATTEMPTS
    ensures Inv(s.(queue := s.queue + [job], accepted := s.accepted[job.deliveryId := job.payload]))
  {
    hide Ids, Remaining, JobsKept, Places;
    var id, payload := job.deliveryId, job.payload;
    var accepted := s.accepted[id := payload];
    Appended(s.queue, job);
    AcceptPlaces(s, job);
    OneMoreAccepted(s.accepted, id, payload);
    StillKept(s.queue, s.accepted, id, payload, 0, MAX_ATTEMPTS - 1);
    StillKept(s.inFlight, s.accepted, id, payload, 1, MAX_ATTEMPTS);
    OneMoreKept(s.queue, job, accepted, 0, MAX_ATTEMPTS - 1);
  }

  lemma AcceptPlaces(s: State, job: Job)
    ensures Places(s.(queue := s.queue + [job], accepted := s.accepted[job.deliveryId := job.payload]))
         == Places(s) + multiset{job.deliveryId}
  {
    hide Ids, Remaining;
    Appended(s.queue, job);
  }

  lemma SettlePlaces(s: State, i: nat, a: Attempt, random: real, now: int)
    requires i < |s.inFlight|
    ensures Places(Settle(s, i, a, random, now)) == Places(s)
  {
    hide Ids, Remaining, Ended, Settle;
    Removed(s.inFlight, i);
    SettleMoves(s, i, a, random, now);
  }

  /** A settled delivery goes back to the queue or ends in one way. */
  lemma SettleMoves(s: State, i: nat, a: Attempt, random: real, now: int)
    requires i < |s.inFlight|
    ensures var t, id := Settle(s, i, a, random, now), multiset{s.inFlight[i].deliveryId};
            && t.inFlight == Without(s.inFlight, i)
            && (|| (Ids(t.queue) == Ids(s.queue) + id && Ended(t) == Ended(s))
                || (t.queue == s.queue && Ended(t) == Ended(s) + id))
  {
    hide Ids, Remaining, Delay, Succeeded, Terminal, Without, Ended;
    var job, t := s.inFlight[i], Settle(s, i, a, random, now);
    var id := multiset{job.deliveryId};
    if !a.Threw? && !Succeeded(a) && !Terminal(a) && job.attempts < job.maxAttempts {
      Appended(s.queue, job.(nextAttemptTime := now + Delay(job.attempts, random)));
      NothingEnds(s, t);
    } else {
      EndsOnce(s, t, id);
    }
  }

  lemma NothingEnds(s: State, t: State)
    requires t.delivered == s.delivered && t.terminal == s.terminal && t.exhausted == s.exhausted && t.lost == s.lost
    ensures Ended(t) == Ended(s)
  {
  }

  lemma EndsOnce(s: State, t: State, id: multiset<DeliveryId>)
    requires var (a, b, c, d) := (s.delivered, s.terminal, s.exhausted, s.lost);
             || (t.delivered, t.terminal, t.exhausted, t.lost) == (a + id, b, c, d)
             || (t.delivered, t.terminal, t.exhausted, t.lost) == (a, b + id, c, d)
             || (t.delivered, t.terminal, t.exhausted, t.lost) == (a, b, c + id, d)
             || (t.delivered, t.terminal, t.exhausted, t.lost) == (a, b, c, d + id)
    ensures Ended(t) == Ended(s) + id
  {
    AddedAnywhere(s.delivered, s.terminal, s.exhausted, s.lost, id);
  }

  lemma AddedAnywhere(
    a: multiset<DeliveryId>, b: multiset<DeliveryId>, c: multiset<DeliveryId>, d: multiset<DeliveryId>,
    id: multiset<DeliveryId>)
    ensures (a + id) + b + c + d == a + b + c + d + id
    ensures a + (b + id) + c + d == a + b + c + d + id
    ensures a + b + (c + id) + d == a + b + c + d + id
    ensures a + b + c + (d + id) == a + b + c + d + id
  {
    Regroup(a, id, b);
    Regroup(a + b, id, c);
    Regroup(a + b + c, id, d);
  }

  lemma Regroup(a: multiset<DeliveryId>, id: multiset<DeliveryId>, b: multiset<DeliveryId>)
    ensures (a + id) + b == (a + b) + id
    ensures a + (b + id) == (a + b) + id
  {
  }

  lemma SettleBudget(s: State, i: nat, a: Attempt, random: real, now: int)
    requires i < |s.inFlight| && s.inFlight[i].attempts <= s.inFlight[i].maxAttempts
    ensures var t := Settle(s, i, a, random, now);
      Remaining(t.queue) + Remaining(t.inFlight) <= Remaining(s.queue) + Remaining(s.inFlight)
  {
    hide Ids, Remaining, Delay;
    var job := s.inFlight[i];
    Removed(s.inFlight, i);
    Appended(s.queue, job.(nextAttemptTime := now + Delay(job.attempts, random)));
  }

  lemma SettleKeeps(s: State, i: nat, a: Attempt, random: real, now: int)
    requires Inv(s) && i < |s.inFlight|
    ensures Inv(Settle(s, i, a, random, now))
  {
    hide Places, Remaining, Delay, Succeeded, Terminal, JobsKept;
    JobAt(s, i);
    SettlePlaces(s, i, a, random, now);
    SettleBudget(s, i, a, random, now);
    SettleJobs(s, i, a, random, now);
  }

  lemma SettleJobs(s: State, i: nat, a: Attempt, random: real, now: int)
    requires i < |s.inFlight|
    requires JobsKept(s.queue, s.accepted, 0, MAX_ATTEMPTS - 1) && JobsKept(s.inFlight, s.accepted, 1, MAX_ATTEMPTS)
    ensures var t := Settle(s, i, a, random, now);
            JobsKept(t.queue, s.accepted, 0, MAX_ATTEMPTS - 1) && JobsKept(t.inFlight, s.accepted, 1, MAX_ATTEMPTS)
  {
    hide Delay, Succeeded, Terminal, JobsKept, Without;
    var job := s.inFlight[i];
    RestKept(s.inFlight, i, s.accepted, 1, MAX_ATTEMPTS);
    if job.attempts < job.maxAttempts {
      var again := job.(nextAttemptTime := now + Delay(job.attempts, random));
      OneMoreKept(s.queue, again, s.accepted, 0, MAX_ATTEMPTS - 1);
    }
  }

  lemma RestKept(jobs: seq<Job>, i: nat, accepted: map<DeliveryId, Payload>, least: nat, most: nat)
    requires i < |jobs| && JobsKept(jobs, accepted, least, most)
    ensures JobsKept(Without(jobs, i), accepted, least, most) && JobKept(jobs[i], accepted, least, most)
  {
    hide JobKept;
    var rest := Without(jobs, i);
    forall k | 0 <= k < |rest|
      ensures JobKept(rest[k], accepted, least, most)
    {
      assert rest[k] == if k < i then jobs[k] else jobs[k + 1];
    }
  }

  /** No step of any kind loses or doubles a delivery, or outgrows a bound. */
  lemma StepKeeps(s: State, step: Step)
    requires Inv(s) && Enabled(s, step)
    ensures Inv(Apply(s, step))
  {
    hide Process, Settle, Enqueue, Places, JobsKept, Remaining;
    match step
    case Event(id, payload, now) => EnqueueKeeps(s, id, payload, now);
    case Timer(now) => ProcessKeeps(s, now);
    case Settled(i, attempt, random, now) => SettleKeeps(s, i, attempt, random, now);
    case Finished(now) =>
      assert Inv(s.(finishing := s.finishing - 1)) by { FinishingIsNoPlace(s); }
      ProcessKeeps(s.(finishing := s.finishing - 1), now);
    case Exited => ExitKeeps(s);
  }

  lemma ExitKeeps(s: State)
    requires Inv(s)
    ensures Inv(Exit(s)) && Work(Exit(s)) <= Work(s)
  {
    RemainingOfKept(s.queue, s.accepted, 0, MAX_ATTEMPTS - 1);
    RemainingOfKept(s.inFlight, s.accepted, 1, MAX_ATTEMPTS);
    assert Ids([]) == multiset{};
  }

  lemma FinishingIsNoPlace(s: State)
    requires s.finishing > 0
    ensures Places(s.(finishing := s.finishing - 1)) == Places(s)
  {
  }

  lemma RunStep(states: seq<State>, steps: seq<Step>, i: nat, next: nat)
    requires IsRun(states, steps) && i < |steps| && next == i + 1
    ensures Enabled(states[i], steps[i]) && states[next] == Apply(states[i], steps[i])
  {
    hide Enabled, Apply;
    assert Follows(states, steps, i);
  }

  lemma NothingIsSound()
    ensures Inv(INITIAL)
  {
    var s := INITIAL;
    assert s.queue == [] && s.inFlight == [] && s.finishing == 0 && s.started == 0 && s.accepted == map[];
    assert Ids(s.queue) == multiset{} && Remaining(s.queue) == 0;
    assert Ids(s.inFlight) == multiset{} && Remaining(s.inFlight) == 0;
    assert Ended(s) == multiset{};
    assert s.accepted.Keys == {} && |s.accepted| == 0;
  }

  lemma {:induction false} RunsKeepInv(states: seq<State>, steps: seq<Step>, n: nat)
    requires IsRun(states, steps) && n < |states| && states[0] == INITIAL
    ensures Inv(states[n])
  {
    hide Apply, Enabled, Inv;
    if n == 0 {
      NothingIsSound();
    } else {
      var before := n - 1;
      RunsKeepInv(states, steps, before);
      RunStep(states, steps, before, n);
      StepKeeps(states[before], steps[before]);
    }
  }

  // ---------------------------------------------------------------------
  // Over every interleaving
  // ---------------------------------------------------------------------

  /** How often `id` is queued, in flight, delivered, dropped as terminal or dropped as exhausted. */
  function Traced(s: State, id: DeliveryId): nat {
    Ids(s.queue)[id] + Ids(s.inFlight)[id] + s.delivered[id] + s.terminal[id] + s.exhausted[id]
  }

  ghost predicate Conserved(s: State) {
    forall id :: id in s.accepted ==> Traced(s, id) == 1
  }

  /** Bounded, never attempted too often, the same job under the same id, in at most one place. */
  lemma QueueIsSafe(states: seq<State>, steps: seq<Step>, n: nat, job: Job)
    requires IsRun(states, steps) && n < |states| && states[0] == INITIAL
    ensures |states[n].queue| + |states[n].inFlight| <= 505 && states[n].Active() <= 5
    ensures job in states[n].queue || job in states[n].inFlight ==>
              job.attempts <= job.maxAttempts == 3
              && job.deliveryId in states[n].accepted && job.payload == states[n].accepted[job.deliveryId]
    ensures states[n].started <= 3 * |states[n].accepted|
    ensures forall id :: Traced(states[n], id) <= 1 && (id !in states[n].accepted ==> Traced(states[n], id) == 0)
  {
    hide Ids, IsRun;
    var s := states[n];
    RunsKeepInv(states, steps, n);
    if job in s.queue {
      var i :| 0 <= i < |s.queue| && s.queue[i] == job;
      assert JobKept(s.queue[i], s.accepted, 0, MAX_ATTEMPTS - 1);
    }
    if job in s.inFlight {
      var i :| 0 <= i < |s.inFlight| && s.inFlight[i] == job;
      assert JobKept(s.inFlight[i], s.accepted, 1, MAX_ATTEMPTS);
    }
    RemainingOfKept(s.queue, s.accepted, 0, MAX_ATTEMPTS - 1);
    RemainingOfKept(s.inFlight, s.accepted, 1, MAX_ATTEMPTS);
    forall id ensures Traced(s, id) + s.lost[id] == if id in s.accepted then 1 else 0 {
      assert Places(s)[id] == multiset(s.accepted.Keys)[id];
    }
  }

  lemma {:induction false} RemainingOfKept(jobs: seq<Job>, accepted: map<DeliveryId, Payload>, least: nat, most: nat)
    requires JobsKept(jobs, accepted, least, most) && most <= MAX_ATTEMPTS
    ensures Remaining(jobs) >= 0
  {
    if jobs == [] {
    } else {
      var last := |jobs| - 1;
      assert JobKept(jobs[last], accepted, least, most);
      RemainingOfKept(jobs[..last], accepted, least, most);
    }
  }

  lemma {:induction false} ProcessOnlyStarts(s: State, now: int)
    ensures var t := Process(s, now);
            && t.lost == s.lost && t.accepted == s.accepted && t.delivered == s.delivered && t.terminal == s.terminal
            && t.exhausted == s.exhausted && t.doomed == s.doomed && t.running == s.running
    decreases MAX_CONCURRENT_DELIVERIES - s.Active()
  {
    var k := FirstReady(s.queue, now);
    if s.Active() < MAX_CONCURRENT_DELIVERIES && k < |s.queue| {
      ProcessOnlyStarts(Start(s, k), now);
    }
  }

  /** Every accepted payload is `allowed`, and as long as those are sendable nothing is lost. */
  ghost predicate Trusted(s: State, allowed: Payload -> bool) {
    && (forall id :: id in s.accepted ==> allowed(s.accepted[id]))
    && ((forall p :: allowed(p) ==> Sendable(p)) ==> !s.doomed && s.running && s.lost == multiset{})
  }

  lemma TrustedStep(s: State, step: Step, allowed: Payload -> bool)
    requires Inv(s) && Trusted(s, allowed) && Enabled(s, step)
    requires step.Event? ==> allowed(step.payload)
    ensures Trusted(Apply(s, step), allowed)
  {
    hide Process, Places, Remaining, Ids, Inv;
    match step
    case Event(id, payload, now) =>
      if |s.queue| < MAX_QUEUE_DEPTH {
        var job := Job(id, payload, 0, MAX_ATTEMPTS, now);
        ProcessOnlyStarts(s.(queue := s.queue + [job], accepted := s.accepted[id := payload]), now);
      }
    case Timer(now) => ProcessOnlyStarts(s, now);
    case Settled(i, _, _, _) => JobAt(s, i);
    case Finished(now) => ProcessOnlyStarts(s.(finishing := s.finishing - 1), now);
    case Exited =>
  }

  ghost predicate EventsFrom(steps: seq<Step>, allowed: Payload -> bool) {
    forall i :: 0 <= i < |steps| && steps[i].Event? ==> allowed(steps[i].payload)
  }

  lemma {:induction false} TrustedRun(states: seq<State>, steps: seq<Step>, n: nat, allowed: Payload -> bool)
    requires IsRun(states, steps) && n < |states| && states[0] == INITIAL && EventsFrom(steps, allowed)
    ensures Trusted(states[n], allowed)
  {
    hide Apply, Enabled;
    if n == 0 {
    } else {
      var before := n - 1;
      TrustedRun(states, steps, before, allowed);
      RunsKeepInv(states, steps, before);
      RunStep(states, steps, before, n);
      TrustedStep(states[before], steps[before], allowed);
    }
  }

  ghost predicate ConservedThroughout(states: seq<State>) {
    forall n :: 0 <= n < |states| ==> Conserved(states[n])
  }

  ghost predicate AllowedRun(states: seq<State>, steps: seq<Step>, allowed: Payload -> bool) {
    IsRun(states, steps) && states[0] == INITIAL && EventsFrom(steps, allowed)
  }

  ghost predicate AlwaysConserved(allowed: Payload -> bool) {
    forall states, steps :: AllowedRun(states, steps, allowed) ==> ConservedThroughout(states)
  }

  /** Over every run whose events carry `allowed` payloads, every accepted delivery is always in exactly one of the five
    * places, if and only if all those payloads can be written as JSON and signed. */
  lemma ConservedIff(allowed: Payload -> bool)
    ensures AlwaysConserved(allowed) <==> forall p :: allowed(p) ==> p.serializable && p.signable
  {
    hide Conserved, Inv, Ids;
    if forall p :: allowed(p) ==> Sendable(p) {
      forall states, steps | AllowedRun(states, steps, allowed)
        ensures ConservedThroughout(states)
      {
        forall n | 0 <= n < |states|
          ensures Conserved(states[n])
        {
          RunsKeepInv(states, steps, n);
          TrustedRun(states, steps, n, allowed);
          NothingLostIsConserved(states[n]);
        }
      }
    } else {
      var p :| allowed(p) && !Sendable(p);
      var states, steps := UnsendableRun(p);
      assert AllowedRun(states, steps, allowed);
      assert !Conserved(states[2]);
      assert !ConservedThroughout(states);
    }
  }

  lemma NothingLostIsConserved(s: State)
    requires Inv(s) && s.lost == multiset{}
    ensures Conserved(s)
  {
    hide Ids, Traced, Inv;
    forall id | id in s.accepted
      ensures Traced(s, id) == 1
    {
      TracedOrLost(s, id);
    }
  }

  lemma UnsendableRun(p: Payload) returns (states: seq<State>, steps: seq<Step>)
    requires !Sendable(p)
    ensures IsRun(states, steps) && states[0] == INITIAL && |states| == 3 && !Conserved(states[2])
    ensures steps == [Event("id", p, 0), Settled(0, Threw, 0.0, 0)]
  {
    hide Traced, Inv, Ids, Enqueue, Remaining;
    var event, settled := Event("id", p, 0), Settled(0, Threw, 0.0, 0);
    FirstIsStarted("id", p);
    var s1 := Apply(INITIAL, event);
    assert s1.inFlight == [Job("id", p, 1, MAX_ATTEMPTS, 0)];
    var s2 := Apply(s1, settled);
    states, steps := [INITIAL, s1, s2], [event, settled];
    assert Follows(states, steps, 0) && Follows(states, steps, 1);
    RunsKeepInv(states, steps, 2);
    TracedOrLost(s2, "id");
    assert "id" in s2.accepted && Traced(s2, "id") != 1;
  }

  lemma FirstIsStarted(id: DeliveryId, payload: Payload)
    ensures var s := Enqueue(INITIAL, id, payload, 0);
            && s.inFlight == [Job(id, payload, 1, MAX_ATTEMPTS, 0)] && s.accepted == map[id := payload] && s.running
  {
    var job := Job(id, payload, 0, MAX_ATTEMPTS, 0);
    var queued := INITIAL.(queue := INITIAL.queue + [job], accepted := INITIAL.accepted[id := payload]);
    assert queued.queue == [job];
    assert Start(queued, 0).queue == [];
    assert Process(Start(queued, 0), 0) == Start(queued, 0);
  }

  /** A delivery that throws takes everything with it: the process may end at once, every queued and unresolved
    * delivery is lost, sendable or not, and nothing happens any more. */
  lemma RejectionLosesEverything(s: State, i: nat, random: real, now: int, later: Step)
    requires s.running && i < |s.inFlight| && !(s.inFlight[i].payload.serializable && s.inFlight[i].payload.signable)
    ensures Enabled(s, Settled(i, Threw, random, now))
    ensures var t := Settle(s, i, Threw, random, now);
            && Enabled(t, Exited)
            && Exit(t).lost == s.lost + Ids(s.queue) + Ids(s.inFlight)
            && !Enabled(Exit(t), later)
  {
    hide Ids;
    Removed(s.inFlight, i);
  }

  lemma TracedOrLost(s: State, id: DeliveryId)
    requires Inv(s)
    ensures Traced(s, id) + s.lost[id] == if id in s.accepted then 1 else 0
  {
    hide Ids;
    assert Places(s)[id] == multiset(s.accepted.Keys)[id];
  }

  /** After processQueue every slot is taken or nothing in the queue is due. */
  lemma {:induction false} ProcessSaturates(s: State, now: int)
    ensures var t := Process(s, now);
      t.Active() >= 5 || forall i :: 0 <= i < |t.queue| ==> !Ready(t.queue[i], now)
    decreases MAX_CONCURRENT_DELIVERIES - s.Active()
  {
    var k := FirstReady(s.queue, now);
    if s.Active() < MAX_CONCURRENT_DELIVERIES && k < |s.queue| {
      ProcessSaturates(Start(s, k), now);
    }
  }

  /** The jobs that are due, or those that are not, in queue order. */
  function Select(queue: seq<Job>, now: int, due: bool): seq<Job> {
    if queue == [] then []
    else (if Ready(queue[0], now) == due then [queue[0]] else []) + Select(queue[1..], now, due)
  }

  /** The jobs with one more attempt counted. */
  function Attempted(jobs: seq<Job>): seq<Job> {
    if jobs == [] then [] else [jobs[0].(attempts := jobs[0].attempts + 1)] + Attempted(jobs[1..])
  }

  lemma {:induction false} FirstReadyIsFirstDue(queue: seq<Job>, now: int)
    ensures var k := FirstReady(queue, now);
      if k == |queue| then Select(queue, now, true) == []
      else Select(queue, now, true) == [queue[k]] + Select(Without(queue, k), now, true)
           && Select(queue, now, false) == Select(Without(queue, k), now, false)
  {
    hide Without, Ready;
    if queue == [] {
    } else if Ready(queue[0], now) {
      WithoutFirst(queue);
    } else {
      var rest := queue[1..];
      FirstReadyIsFirstDue(rest, now);
      var k := FirstReady(rest, now);
      if k < |rest| {
        WithoutLater(queue, k + 1);
      }
    }
  }

  lemma WithoutFirst<T>(s: seq<T>)
    requires s != []
    ensures Without(s, 0) == s[1..]
  {
  }

  lemma WithoutLater<T>(s: seq<T>, i: nat)
    requires 0 < i < |s|
    ensures Without(s, i)[0] == s[0] && Without(s, i)[1..] == Without(s[1..], i - 1)
  {
  }

  /** processQueue starts the first due jobs of the queue, as many as there are free slots, and leaves the rest in
    * order. */
  lemma {:induction false} ProcessStartsInOrder(s: State, now: int)
    ensures var t, due := Process(s, now), Select(s.queue, now, true);
      var free := if s.Active() < MAX_CONCURRENT_DELIVERIES then MAX_CONCURRENT_DELIVERIES - s.Active() else 0;
      var n := if |due| < free then |due| else free;
      && t.inFlight == s.inFlight + Attempted(due[..n])
      && Select(t.queue, now, true) == due[n..]
      && Select(t.queue, now, false) == Select(s.queue, now, false)
    decreases MAX_CONCURRENT_DELIVERIES - s.Active()
  {
    hide Select, FirstReady, Without, Attempted;
    var k := FirstReady(s.queue, now);
    var due := Select(s.queue, now, true);
    FirstReadyIsFirstDue(s.queue, now);
    if s.Active() < MAX_CONCURRENT_DELIVERIES && k < |s.queue| {
      ProcessStartsInOrder(Start(s, k), now);
      var free := MAX_CONCURRENT_DELIVERIES - s.Active();
      var n := if |due| < free then |due| else free;
      var later := Select(Start(s, k).queue, now, true);
      DueSplits(s.inFlight, due, later, n);
    } else {
      NothingStarts(s.inFlight, due);
    }
  }

  lemma NothingStarts(inFlight: seq<Job>, due: seq<Job>)
    ensures inFlight + Attempted(due[..0]) == inFlight && due[0..] == due
  {
  }

  lemma DueSplits(inFlight: seq<Job>, due: seq<Job>, later: seq<Job>, n: nat)
    requires due != [] && due == [due[0]] + later && 0 < n <= |due|
    ensures inFlight + Attempted(due[..n])
            == (inFlight + [due[0].(attempts := due[0].attempts + 1)]) + Attempted(later[..n - 1])
    ensures due[n..] == later[n - 1..]
  {
    assert due[..n][1..] == later[..n - 1];
  }

  /** The attempts all pending jobs have left. */
  function Work(s: State): int {
    Remaining(s.queue) + Remaining(s.inFlight)
  }

  lemma {:induction false} ProcessSpends(s: State, now: int)
    ensures Process(s, now).started + Work(Process(s, now)) == s.started + Work(s)
    decreases MAX_CONCURRENT_DELIVERIES - s.Active()
  {
    hide Remaining, Ids;
    var k := FirstReady(s.queue, now);
    if s.Active() < MAX_CONCURRENT_DELIVERIES && k < |s.queue| {
      var job := s.queue[k];
      Removed(s.queue, k);
      Appended(s.inFlight, job.(attempts := job.attempts + 1));
      ProcessSpends(Start(s, k), now);
    }
  }

  /** Each delivery that starts uses up one remaining attempt, and only a new event adds any. */
  lemma StepSpends(s: State, step: Step)
    requires Inv(s) && Enabled(s, step)
    ensures Apply(s, step).started + Work(Apply(s, step))
         <= s.started + Work(s) + if step.Event? then MAX_ATTEMPTS else 0
  {
    hide Process, Places, JobsKept, Remaining, Delay;
    match step
    case Event(id, payload, now) =>
      if |s.queue| < MAX_QUEUE_DEPTH {
        var job := Job(id, payload, 0, MAX_ATTEMPTS, now);
        Appended(s.queue, job);
        ProcessSpends(s.(queue := s.queue + [job], accepted := s.accepted[id := payload]), now);
      }
    case Timer(now) => ProcessSpends(s, now);
    case Settled(i, attempt, random, now) =>
      JobAt(s, i);
      SettleBudget(s, i, attempt, random, now);
    case Finished(now) => ProcessSpends(s.(finishing := s.finishing - 1), now);
    case Exited => ExitKeeps(s);
  }

  lemma JobAt(s: State, i: nat)
    requires Inv(s) && i < |s.inFlight|
    ensures JobKept(s.inFlight[i], s.accepted, 1, MAX_ATTEMPTS)
  {
  }

  /** Without new events, no more deliveries start than there are attempts left. */
  lemma {:induction false} WorkRunsOut(states: seq<State>, steps: seq<Step>, first: nat, last: nat)
    requires IsRun(states, steps) && first <= last < |states| && states[0] == INITIAL
    requires forall i :: first <= i < last ==> !steps[i].Event?
    ensures states[last].started + Work(states[last]) <= states[first].started + Work(states[first])
    ensures Work(states[last]) >= 0
    decreases last
  {
    hide Apply, Work, Inv, Enabled;
    RunsKeepInv(states, steps, last);
    WorkIsNatural(states[last]);
    if first < last {
      var before := last - 1;
      WorkRunsOut(states, steps, first, before);
      RunsKeepInv(states, steps, before);
      RunStep(states, steps, before, last);
      StepSpends(states[before], steps[before]);
    }
  }

  lemma WorkIsNatural(s: State)
    requires Inv(s)
    ensures Work(s) >= 0
  {
    RemainingOfKept(s.queue, s.accepted, 0, MAX_ATTEMPTS - 1);
    RemainingOfKept(s.inFlight, s.accepted, 1, MAX_ATTEMPTS);
  }

  // ---------------------------------------------------------------------
  // The service
  // ---------------------------------------------------------------------

  class WebhookDispatcher {
    var queue: seq<Job>
    var activeDeliveries: nat
    ghost var state: State

    ghost predicate Valid()
      reads this
    {
      state.queue == queue && state.Active() == activeDeliveries
    }

    constructor ()
      ensures Valid() && state == INITIAL
    {
      queue, activeDeliveries, state := [], 0, INITIAL;
    }

    method EnqueueEvent(id: DeliveryId, payload: Payload, now: int)
      requires Valid()
      modifies this
      ensures Valid() && state == Enqueue(old(state), id, payload, now)
      ensures |old(queue)| >= 500 ==> state == old(state)
      ensures |old(queue)| < 500 ==>
                state == Process(old(state).(queue := old(queue) + [Job(id, payload, 0, 3, now)],
                                            accepted := old(state.accepted)[id := payload]), now)
    {
      if |queue| >= MAX_QUEUE_DEPTH {
        return;
      }
      var job := Job(id, payload, 0, MAX_ATTEMPTS, now);
      queue := queue + [job];
      state := state.(queue := queue, accepted := state.accepted[id := payload]);
      ProcessQueue(now);
    }

    method ProcessQueue(now: int)
      requires Valid()
      modifies this
      ensures Valid() && state == Process(old(state), now)
    {
      while activeDeliveries < MAX_CONCURRENT_DELIVERIES
        invariant Valid() && Process(state, now) == Process(old(state), now)
        decreases MAX_CONCURRENT_DELIVERIES - activeDeliveries
      {
        var readyIndex := FirstReady(queue, now);
        if readyIndex == |queue| {
          break;
        }
        state := Start(state, readyIndex);
        queue := Without(queue, readyIndex);
        activeDeliveries := activeDeliveries + 1;
      }
    }

    /** The then callback of the delivery of `job`, the one at `i` among those in flight. */
    method OnResult(job: Job, ghost i: nat, a: Attempt, random: real, now: int)
      requires Valid() && i < |state.inFlight| && state.inFlight[i] == job && !a.Threw? && Possible(job, a)
      modifies this
      ensures Valid() && state == Settle(old(state), i, a, random, now)
      ensures var mine, client := multiset{job.deliveryId}, a.Response? && 400 <= a.status <= 499 && a.status != 429;
              if a.Response? && 200 <= a.status <= 299 then
                queue == old(queue) && state.delivered == old(state.delivered) + mine
              else if client then queue == old(queue) && state.terminal == old(state.terminal) + mine
              else if job.attempts >= job.maxAttempts then
                queue == old(queue) && state.exhausted == old(state.exhausted) + mine
              else
                && |queue| == |old(queue)| + 1 && queue[..|old(queue)|] == old(queue)
                && var again := queue[|old(queue)|];
                   && again.(nextAttemptTime := job.nextAttemptTime) == job
                   && (0.0 <= random < 1.0 ==>
                         var seconds := if job.attempts == 1 then 2 else if job.attempts == 2 then 4
                                        else Pow2(job.attempts);
                         var exact := (1000 * seconds) as real * (0.8 + 0.4 * random);
                         exact - 0.5 < (again.nextAttemptTime - now) as real <= exact + 0.5)
    {
      Pow2Doubles(job.attempts);
      if 0.0 <= random < 1.0 {
        DelayIs(job.attempts, random);
      }
      state := Settle(state, i, a, random, now);
      if !Succeeded(a) {
        if !Terminal(a) && job.attempts < job.maxAttempts {
          queue := queue + [job.(nextAttemptTime := now + Delay(job.attempts, random))];
        }
      }
    }

    /** The promise rejects: no callback of this kind runs, and the process is doomed. */
    ghost method OnRejection(i: nat)
      requires Valid() && i < |state.inFlight| && Possible(state.inFlight[i], Threw)
      modifies this`state
      ensures Valid() && state == Settle(old(state), i, Threw, 0.0, 0)
    {
      state := Settle(state, i, Threw, 0.0, 0);
    }

    /** The finally callback, after a result as after a rejection. */
    method OnFinally(now: int)
      requires Valid() && state.finishing > 0
      modifies this
      ensures Valid() && state == Finally(old(state), now)
    {
      state := state.(finishing := state.finishing - 1);
      activeDeliveries := activeDeliveries - 1;
      ProcessQueue(now);
    }
  }
}
