/** The alert rate limiter (src/notifications/token-bucket-rate-limiter.ts): a lazily refilled bucket and a cooldown. */
module TokenBucket {
  import opened Options

  /** Times count a unit in which the refill interval is a whole number; `millisecond` is that many units. */
  datatype Config = Config(capacity: int, interval: int, cooldown: int, millisecond: int) {
    predicate Valid() {
      interval > 0 && millisecond > 0
    }

    function Second(): int {
      1000 * millisecond
    }
  }

  datatype BucketState = BucketState(tokens: int, lastRefill: int, lastAcquired: int)

  datatype AcquireResult = Allowed | CoolingDown(waitSeconds: int) | Exhausted(waitSeconds: int)

  /** One attempt on a key: when, and with which cooldown. */
  datatype Call = Call(now: int, cooldown: int)

  function Min(a: int, b: int): int {
    if a <= b then a else b
  }

  function Max(a: int, b: int): int {
    if a <= b then b else a
  }

  /** Math.ceil(amount / unit). */
  function CeilDiv(amount: int, unit: int): int
    requires unit > 0
  {
    (amount + unit - 1) / unit
  }

  // ---------------------------------------------------------------------
  // The lazy bucket
  // ---------------------------------------------------------------------

  function Refill(c: Config, s: BucketState, now: int): BucketState
    requires c.Valid()
  {
    var elapsed := now - s.lastRefill;
    if elapsed < c.interval then s
    else s.(tokens := Min(c.capacity, s.tokens + elapsed / c.interval), lastRefill := now - elapsed % c.interval)
  }

  /** What one attempt answers, and the state it leaves behind. */
  function Acquire(c: Config, state: Option<BucketState>, call: Call): (BucketState, AcquireResult)
    requires c.Valid()
  {
    if state.None? then (BucketState(c.capacity - 1, call.now, call.now), Allowed)
    else
      var s := state.value;
      var sinceLast := call.now - s.lastAcquired;
      if sinceLast < call.cooldown then (s, CoolingDown(CeilDiv(call.cooldown - sinceLast, c.Second())))
      else
        var refilled := Refill(c, s, call.now);
        if refilled.tokens < 1 then
          var untilRefill := c.interval - (call.now - refilled.lastRefill);
          (refilled, Exhausted(CeilDiv(Max(c.millisecond, untilRefill), c.Second())))
        else (refilled.(tokens := refilled.tokens - 1, lastAcquired := call.now), Allowed)
  }

  class TokenBucketRateLimiter {
    const config: Config
    var buckets: map<string, BucketState>

    constructor (config: Config)
      ensures this.config == config && buckets == map[]
    {
      this.config := config;
      buckets := map[];
    }

    ghost function StateOf(key: string): Option<BucketState>
      reads this
    {
      if key in buckets then Some(buckets[key]) else None
    }

    method TryAcquire(key: string, cooldownOverrideSeconds: Option<int>, now: int) returns (result: AcquireResult)
      requires config.Valid()
      modifies this`buckets
      ensures var cooldown := if cooldownOverrideSeconds.None? then config.cooldown
                              else cooldownOverrideSeconds.value * (1000 * config.millisecond);
              var (state, answer) := Acquire(config, old(StateOf(key)), Call(now, cooldown));
              result == answer && buckets == old(buckets)[key := state]
    {
      var cooldown := config.cooldown;
      if cooldownOverrideSeconds.Some? {
        cooldown := cooldownOverrideSeconds.value * config.Second();
      }
      if key !in buckets {
        buckets := buckets[key := BucketState(config.capacity - 1, now, now)];
        return Allowed;
      }
      var state := buckets[key];
      var elapsedSinceLast := now - state.lastAcquired;
      if elapsedSinceLast < cooldown {
        return CoolingDown(CeilDiv(cooldown - elapsedSinceLast, config.Second()));
      }
      var elapsedSinceRefill := now - state.lastRefill;
      if elapsedSinceRefill >= config.interval {
        var tokensToAdd := elapsedSinceRefill / config.interval;
        state := state.(tokens := Min(config.capacity, state.tokens + tokensToAdd));
        state := state.(lastRefill := now - elapsedSinceRefill % config.interval);
      }
      if state.tokens < 1 {
        buckets := buckets[key := state];
        var untilRefill := config.interval - (now - state.lastRefill);
        return Exhausted(CeilDiv(Max(config.millisecond, untilRefill), config.Second()));
      }
      buckets := buckets[key := state.(tokens := state.tokens - 1, lastAcquired := now)];
      return Allowed;
    }
  }

  // ---------------------------------------------------------------------
  // Runs on one key
  // ---------------------------------------------------------------------

  ghost predicate Ordered(calls: seq<Call>) {
    forall i, j :: 0 <= i < j < |calls| ==> calls[i].now <= calls[j].now
  }

  /** The bucket after all the calls, None before the first. */
  function Lazy(c: Config, calls: seq<Call>): Option<BucketState>
    requires c.Valid()
  {
    if calls == [] then None
    else Some(Acquire(c, Lazy(c, calls[..|calls| - 1]), calls[|calls| - 1]).0)
  }

  /** What call `i` of the run is answered. */
  function Answer(c: Config, calls: seq<Call>, i: nat): AcquireResult
    requires c.Valid() && i < |calls|
  {
    Acquire(c, Lazy(c, calls[..i]), calls[i]).1
  }

  /** How many of the calls were granted. */
  function Grants(c: Config, calls: seq<Call>): nat
    requires c.Valid()
  {
    if calls == [] then 0
    else
      var last := |calls| - 1;
      Grants(c, calls[..last]) + if Answer(c, calls, last).Allowed? then 1 else 0
  }

  // ---------------------------------------------------------------------
  // The eager bucket: one token at every interval after the first use
  // ---------------------------------------------------------------------

  datatype Eager = Eager(start: int, tokens: int, ticks: nat, lastAcquired: int)

  /** `n` ticks, one at a time; a full bucket stays full. */
  function Ticked(c: Config, tokens: int, n: nat): int {
    if n == 0 then tokens else Min(c.capacity, Ticked(c, tokens, n - 1) + 1)
  }

  /** The ticks due by `now`, at start + interval, start + 2 * interval and so on. */
  function TicksDue(c: Config, start: int, now: int): int
    requires c.Valid()
  {
    (now - start) / c.interval
  }

  function TickUntil(c: Config, e: Eager, now: int): Eager
    requires c.Valid()
  {
    var due := TicksDue(c, e.start, now);
    if due <= e.ticks then e else e.(tokens := Ticked(c, e.tokens, due - e.ticks), ticks := due)
  }

  function EagerAcquire(c: Config, state: Option<Eager>, call: Call): (Eager, AcquireResult)
    requires c.Valid()
  {
    if state.None? then (Eager(call.now, c.capacity - 1, 0, call.now), Allowed)
    else
      var e := TickUntil(c, state.value, call.now);
      var cooledAt := e.lastAcquired + call.cooldown;
      var nextTick := e.start + (e.ticks + 1) * c.interval;
      if call.now < cooledAt then (e, CoolingDown(CeilDiv(cooledAt - call.now, c.Second())))
      else if e.tokens < 1 then (e, Exhausted(CeilDiv(Max(c.millisecond, nextTick - call.now), c.Second())))
      else (e.(tokens := e.tokens - 1, lastAcquired := call.now), Allowed)
  }

  function EagerRun(c: Config, calls: seq<Call>): Option<Eager>
    requires c.Valid()
  {
    if calls == [] then None
    else Some(EagerAcquire(c, EagerRun(c, calls[..|calls| - 1]), calls[|calls| - 1]).0)
  }

  function EagerAnswer(c: Config, calls: seq<Call>, i: nat): AcquireResult
    requires c.Valid() && i < |calls|
  {
    EagerAcquire(c, EagerRun(c, calls[..i]), calls[i]).1
  }

  /** The lazy bucket has credited the first `credited` ticks; the others are still owed. */
  ghost predicate Owes(c: Config, s: BucketState, e: Eager, credited: nat) {
    && credited <= e.ticks
    && s.lastRefill == e.start + credited * c.interval
    && s.tokens <= c.capacity
    && s.lastAcquired == e.lastAcquired
    && e.tokens == Ticked(c, s.tokens, e.ticks - credited)
  }

  /** The state after calls up to time `now`. */
  ghost predicate Matches(c: Config, s: BucketState, e: Eager, now: int)
    requires c.Valid()
  {
    && e.start <= now && e.ticks <= TicksDue(c, e.start, now)
    && exists credited: nat :: Owes(c, s, e, credited)
  }

  lemma Multiples(n: int, d: int)
    requires d > 0
    ensures n >= 1 ==> n * d >= d
    ensures n <= -1 ==> n * d <= -d
  {
  }

  lemma DivUnique(x: int, d: int, q: int, r: int)
    requires d > 0 && x == q * d + r && 0 <= r < d
    ensures x / d == q && x % d == r
  {
    var more := x / d - q;
    assert more * d == r - x % d by {
      assert x == x / d * d + x % d;
      assert more * d == x / d * d - q * d;
    }
    Multiples(more, d);
  }

  lemma {:induction false} TickedIsCapped(c: Config, tokens: int, n: nat)
    requires tokens <= c.capacity
    ensures Ticked(c, tokens, n) == Min(c.capacity, tokens + n)
  {
    if n == 0 {
    } else {
      TickedIsCapped(c, tokens, n - 1);
    }
  }

  lemma TicksGrow(c: Config, start: int, earlier: int, later: int)
    requires c.Valid() && earlier <= later
    ensures TicksDue(c, start, earlier) <= TicksDue(c, start, later)
    ensures start <= earlier ==> TicksDue(c, start, earlier) >= 0
  {
    var more := TicksDue(c, start, later) - TicksDue(c, start, earlier);
    assert more * c.interval == TicksDue(c, start, later) * c.interval - TicksDue(c, start, earlier) * c.interval;
    Multiples(more, c.interval);
    Multiples(TicksDue(c, start, earlier), c.interval);
  }

  /** Past the cooldown the lazy bucket catches up with every tick due. */
  lemma RefillCatchesUp(c: Config, s: BucketState, e: Eager, credited: nat, prev: int, now: int)
    requires c.Valid() && prev <= now && e.start <= prev && e.ticks <= TicksDue(c, e.start, prev)
    requires Owes(c, s, e, credited)
    ensures Owes(c, Refill(c, s, now), TickUntil(c, e, now), TicksDue(c, e.start, now))
    ensures Refill(c, s, now).tokens == TickUntil(c, e, now).tokens
  {
    TicksGrow(c, e.start, prev, now);
    var due := TicksDue(c, e.start, now);
    var rest := (now - e.start) % c.interval;
    var elapsed := now - s.lastRefill;
    assert elapsed == (due - credited) * c.interval + rest by {
      assert now - e.start == due * c.interval + rest;
      assert (due - credited) * c.interval == due * c.interval - credited * c.interval;
    }
    DivUnique(elapsed, c.interval, due - credited, rest);
    Multiples(due - credited, c.interval);
    TickedIsCapped(c, s.tokens, e.ticks - credited);
    TickedIsCapped(c, e.tokens, due - e.ticks);
  }

  lemma CatchUpLater(c: Config, s: BucketState, e: Eager, credited: nat, prev: int, now: int)
    requires c.Valid() && prev <= now && e.start <= prev && e.ticks <= TicksDue(c, e.start, prev)
    requires Owes(c, s, e, credited)
    ensures Owes(c, s, TickUntil(c, e, now), credited)
  {
    TicksGrow(c, e.start, prev, now);
    var due := TicksDue(c, e.start, now);
    TickedIsCapped(c, s.tokens, e.ticks - credited);
    TickedIsCapped(c, e.tokens, due - e.ticks);
    TickedIsCapped(c, s.tokens, due - credited);
  }

  lemma TickUntilKeeps(c: Config, e: Eager, now: int)
    requires c.Valid() && e.ticks <= TicksDue(c, e.start, now)
    ensures var ticked := TickUntil(c, e, now);
      ticked.start == e.start && ticked.ticks == TicksDue(c, e.start, now) && ticked.lastAcquired == e.lastAcquired
  {
  }

  lemma FullyCredited(c: Config, s: BucketState, e: Eager)
    requires s.lastRefill == e.start + e.ticks * c.interval
    requires s.tokens == e.tokens <= c.capacity && s.lastAcquired == e.lastAcquired
    ensures Owes(c, s, e, e.ticks)
  {
  }

  /** Past the cooldown, equal tokens give equal answers and stay equal. */
  lemma ReadyAnswers(c: Config, s: BucketState, e: Eager, call: Call)
    requires c.Valid() && s.lastAcquired == e.lastAcquired && call.now - s.lastAcquired >= call.cooldown
    requires var (r, t) := (Refill(c, s, call.now), TickUntil(c, e, call.now));
      && r.tokens == t.tokens <= c.capacity && r.lastRefill == t.start + t.ticks * c.interval
      && r.lastAcquired == t.lastAcquired && t.lastAcquired == e.lastAcquired
    ensures Acquire(c, Some(s), call).1 == EagerAcquire(c, Some(e), call).1
    ensures var (lazy, eager) := (Acquire(c, Some(s), call).0, EagerAcquire(c, Some(e), call).0);
      eager.start == TickUntil(c, e, call.now).start && Owes(c, lazy, eager, eager.ticks)
  {
    hide Refill, TickUntil, Owes, CeilDiv;
    var t := TickUntil(c, e, call.now);
    assert (t.ticks + 1) * c.interval == t.ticks * c.interval + c.interval;
    FullyCredited(c, Acquire(c, Some(s), call).0, EagerAcquire(c, Some(e), call).0);
  }

  /** One call: the same answer, and the states still match. */
  lemma SameAnswer(c: Config, s: BucketState, e: Eager, prev: int, call: Call)
    requires c.Valid() && prev <= call.now && Matches(c, s, e, prev)
    ensures Acquire(c, Some(s), call).1 == EagerAcquire(c, Some(e), call).1
    ensures Matches(c, Acquire(c, Some(s), call).0, EagerAcquire(c, Some(e), call).0, call.now)
  {
    hide Refill, TickUntil, Ticked, TicksDue, CeilDiv;
    var credited: nat :| Owes(c, s, e, credited);
    TicksGrow(c, e.start, prev, call.now);
    TickUntilKeeps(c, e, call.now);
    if call.now - s.lastAcquired < call.cooldown {
      CatchUpLater(c, s, e, credited, prev, call.now);
    } else {
      RefillCatchesUp(c, s, e, credited, prev, call.now);
      ReadyAnswers(c, s, e, call);
    }
  }

  /** The lazy refill decides as a bucket that ticks at every interval. */
  lemma {:induction false} LazyIsEager(c: Config, calls: seq<Call>)
    requires c.Valid() && Ordered(calls)
    ensures forall i: nat :: i < |calls| ==> Answer(c, calls, i) == EagerAnswer(c, calls, i)
    ensures calls != [] ==> Matches(c, Lazy(c, calls).value, EagerRun(c, calls).value, calls[|calls| - 1].now)
  {
    if calls == [] {
    } else {
      var last := |calls| - 1;
      var init, call := calls[..last], calls[last];
      LazyIsEager(c, init);
      forall i: nat | i < last ensures Answer(c, calls, i) == EagerAnswer(c, calls, i) {
        assert init[..i] == calls[..i];
        assert Answer(c, init, i) == EagerAnswer(c, init, i);
      }
      if init == [] {
        assert Lazy(c, init) == None && EagerRun(c, init) == None;
        FullyCredited(c, Lazy(c, calls).value, EagerRun(c, calls).value);
      } else {
        SameAnswer(c, Lazy(c, init).value, EagerRun(c, init).value, init[last - 1].now, call);
      }
    }
  }

  // ---------------------------------------------------------------------
  // How many are granted, and how far apart
  // ---------------------------------------------------------------------

  lemma {:induction false} TickedAddsAtMost(c: Config, tokens: int, n: nat)
    ensures Ticked(c, tokens, n) <= tokens + n
  {
    if n == 0 {
    } else {
      TickedAddsAtMost(c, tokens, n - 1);
    }
  }

  /** Every token handed out was there at the start or came with a tick. */
  lemma {:induction false} Budget(c: Config, calls: seq<Call>)
    requires c.Valid() && Ordered(calls) && calls != []
    ensures var e := EagerRun(c, calls).value;
      && e.start == calls[0].now && e.ticks <= TicksDue(c, e.start, calls[|calls| - 1].now)
      && Grants(c, calls) + e.tokens <= c.capacity + e.ticks
  {
    hide TicksDue, Ticked, Acquire, CeilDiv, Matches;
    var last := |calls| - 1;
    var init, call := calls[..last], calls[last];
    LazyIsEager(c, calls);
    assert Answer(c, calls, last) == EagerAnswer(c, calls, last);
    MatchesBounds(c, calls);
    if init == [] {
      assert Grants(c, init) == 0 && EagerRun(c, init) == None;
    } else {
      Budget(c, init);
      var e := EagerRun(c, init).value;
      var due := TicksDue(c, e.start, call.now);
      if due > e.ticks {
        TickedAddsAtMost(c, e.tokens, due - e.ticks);
      }
    }
  }

  lemma MatchesBounds(c: Config, calls: seq<Call>)
    requires c.Valid() && Ordered(calls) && calls != []
    ensures var e := EagerRun(c, calls).value; e.ticks <= TicksDue(c, e.start, calls[|calls| - 1].now)
  {
    hide TicksDue, Acquire, EagerAcquire, Owes;
    LazyIsEager(c, calls);
  }

  lemma {:induction false} TokensNeverNegative(c: Config, calls: seq<Call>)
    requires c.Valid() && Ordered(calls) && calls != [] && c.capacity >= 1
    ensures 0 <= Lazy(c, calls).value.tokens <= c.capacity
  {
    hide CeilDiv;
    var init, call := calls[..|calls| - 1], calls[|calls| - 1];
    if init != [] {
      TokensNeverNegative(c, init);
      var s := Lazy(c, init).value;
      if call.now - s.lastRefill >= c.interval {
        Multiples(-((call.now - s.lastRefill) / c.interval), c.interval);
      }
    } else {
      assert Lazy(c, init) == None;
    }
  }

  ghost predicate WithinBudget(c: Config, calls: seq<Call>)
    requires c.Valid() && calls != []
  {
    Grants(c, calls) <= c.capacity + TicksDue(c, calls[0].now, calls[|calls| - 1].now)
  }

  /** From the first use on, no more grants than the capacity and one for each full interval. */
  lemma GrantsAreBounded(c: Config, calls: seq<Call>)
    requires c.Valid() && Ordered(calls) && calls != [] && c.capacity >= 1
    ensures WithinBudget(c, calls)
  {
    hide Grants, TicksDue;
    Budget(c, calls);
    EagerNeverNegative(c, calls);
  }

  lemma EagerNeverNegative(c: Config, calls: seq<Call>)
    requires c.Valid() && Ordered(calls) && calls != [] && c.capacity >= 1
    ensures EagerRun(c, calls).value.tokens >= 0
  {
    hide TicksDue, Acquire, EagerAcquire;
    LazyIsEager(c, calls);
    TokensNeverNegative(c, calls);
    var s, e := Lazy(c, calls).value, EagerRun(c, calls).value;
    var credited: nat :| Owes(c, s, e, credited);
    TickedIsCapped(c, s.tokens, e.ticks - credited);
  }

  /** The first use is granted unasked, so the bound needs a capacity of at least one, and no more. */
  lemma BudgetIffCapacity(c: Config)
    requires c.Valid()
    ensures c.capacity >= 1 <==> forall calls: seq<Call> :: Ordered(calls) && calls != [] ==> WithinBudget(c, calls)
  {
    forall calls: seq<Call> | c.capacity >= 1 && Ordered(calls) && calls != [] ensures WithinBudget(c, calls) {
      GrantsAreBounded(c, calls);
    }
    if c.capacity < 1 {
      var once := [Call(0, 0)];
      assert Lazy(c, once[..0]) == None && Grants(c, once[..0]) == 0;
      assert TicksDue(c, 0, 0) == 0;
      assert Ordered(once) && !WithinBudget(c, once);
    }
  }

  lemma {:induction false} LastGrantIsRemembered(c: Config, calls: seq<Call>, i: nat)
    requires c.Valid() && Ordered(calls) && i < |calls| && Answer(c, calls, i).Allowed?
    ensures Lazy(c, calls).value.lastAcquired >= calls[i].now
  {
    hide Refill, CeilDiv;
    var last := |calls| - 1;
    var init := calls[..last];
    if i < last {
      assert init[..i] == calls[..i];
      LastGrantIsRemembered(c, init, i);
      RefillKeepsGrant(c, Lazy(c, init).value, calls[last].now);
    }
  }

  lemma RefillKeepsGrant(c: Config, s: BucketState, now: int)
    requires c.Valid()
    ensures Refill(c, s, now).lastAcquired == s.lastAcquired
  {
  }

  /** Two grants on a key are at least the cooldown of the later one apart. */
  lemma GrantsAreApart(c: Config, calls: seq<Call>, i: nat, j: nat)
    requires c.Valid() && Ordered(calls) && i < j < |calls|
    requires Answer(c, calls, i).Allowed? && Answer(c, calls, j).Allowed?
    ensures calls[j].now - calls[i].now >= calls[j].cooldown
  {
    var before := calls[..j];
    assert before[..i] == calls[..i];
    LastGrantIsRemembered(c, before, i);
  }

  // ---------------------------------------------------------------------
  // Waiting as told
  // ---------------------------------------------------------------------

  lemma CeilDivIsLeast(amount: int, unit: int, k: int)
    requires unit > 0
    ensures k >= CeilDiv(amount, unit) <==> k * unit >= amount
  {
    var w := CeilDiv(amount, unit);
    assert w * unit + (amount + unit - 1) % unit == amount + unit - 1;
    assert (k - w) * unit == k * unit - w * unit;
    Multiples(k - w, unit);
  }

  lemma RefillLeavesLessThanAnInterval(c: Config, s: BucketState, now: int)
    requires c.Valid()
    ensures now - Refill(c, s, now).lastRefill < c.interval
  {
  }

  /** After an exhausted bucket's denial, the next try with the same cooldown is granted from waitSeconds on, and not
    * before. */
  lemma WaitIsExact(c: Config, calls: seq<Call>, k: nat)
    requires c.Valid() && Ordered(calls) && calls != [] && c.capacity >= 1
    requires Answer(c, calls, |calls| - 1).Exhausted?
    ensures var denied := calls[|calls| - 1];
      var retry := Call(denied.now + k * (1000 * c.millisecond), denied.cooldown);
      Answer(c, calls + [retry], |calls|).Allowed? <==> k >= Answer(c, calls, |calls| - 1).waitSeconds
  {
    var last := |calls| - 1;
    var init, denied := calls[..last], calls[last];
    var retry := Call(denied.now + k * c.Second(), denied.cooldown);
    assert (calls + [retry])[..|calls|] == calls;
    TokensNeverNegative(c, calls);
    var s := Lazy(c, calls).value;
    DenialMeans(c, Lazy(c, init), denied);
    hide CeilDiv, Acquire, Refill;
    var untilRefill := c.interval - (denied.now - s.lastRefill);
    assert k >= 1 ==> k * c.Second() >= c.Second() by { Multiples(k, c.Second()); }
    CeilDivIsLeast(Max(c.millisecond, untilRefill), c.Second(), k);
    RetryIsAllowedIff(c, s, retry);
  }

  /** An exhausted bucket is empty, out of its cooldown, and less than an interval from its last refill. */
  lemma DenialMeans(c: Config, state: Option<BucketState>, denied: Call)
    requires c.Valid() && Acquire(c, state, denied).1.Exhausted?
    ensures var (s, answer) := Acquire(c, state, denied);
            && s.tokens < 1 && denied.now - s.lastAcquired >= denied.cooldown && denied.now - s.lastRefill < c.interval
            && answer.waitSeconds == CeilDiv(Max(c.millisecond, c.interval - (denied.now - s.lastRefill)), c.Second())
  {
    hide CeilDiv;
    RefillLeavesLessThanAnInterval(c, state.value, denied.now);
  }

  lemma RetryIsAllowedIff(c: Config, s: BucketState, retry: Call)
    requires c.Valid() && c.capacity >= 1 && s.tokens == 0 && retry.now - s.lastAcquired >= retry.cooldown
    ensures Acquire(c, Some(s), retry).1.Allowed? <==> retry.now - s.lastRefill >= c.interval
  {
    hide CeilDiv;
    var elapsed := retry.now - s.lastRefill;
    if elapsed >= c.interval {
      Multiples(-(elapsed / c.interval), c.interval);
    }
  }

  lemma CooldownWaitIsExact(c: Config, calls: seq<Call>, k: nat)
    requires c.Valid() && calls != [] && Answer(c, calls, |calls| - 1).CoolingDown?
    ensures var denied := calls[|calls| - 1];
      var retry := Call(denied.now + k * (1000 * c.millisecond), denied.cooldown);
      Answer(c, calls + [retry], |calls|).CoolingDown? <==> k < Answer(c, calls, |calls| - 1).waitSeconds
  {
    hide CeilDiv, Refill;
    var last := |calls| - 1;
    var denied := calls[last];
    var retry := Call(denied.now + k * c.Second(), denied.cooldown);
    assert (calls + [retry])[..|calls|] == calls;
    var s := Lazy(c, calls[..last]).value;
    CeilDivIsLeast(denied.cooldown - (denied.now - s.lastAcquired), c.Second(), k);
  }

  // ---------------------------------------------------------------------
  // Many keys
  // ---------------------------------------------------------------------

  datatype KeyedCall = KeyedCall(key: string, call: Call)

  function OnKey(calls: seq<KeyedCall>, key: string): seq<Call> {
    if calls == [] then []
    else
      var last := calls[|calls| - 1];
      OnKey(calls[..|calls| - 1], key) + if last.key == key then [last.call] else []
  }

  function Lookup(buckets: map<string, BucketState>, key: string): Option<BucketState> {
    if key in buckets then Some(buckets[key]) else None
  }

  /** The buckets after attempts on any keys. */
  function LimiterRun(c: Config, calls: seq<KeyedCall>): map<string, BucketState>
    requires c.Valid()
  {
    if calls == [] then map[]
    else
      var before := LimiterRun(c, calls[..|calls| - 1]);
      var last := calls[|calls| - 1];
      before[last.key := Acquire(c, Lookup(before, last.key), last.call).0]
  }

  /** A key's bucket depends on the attempts on that key alone. */
  lemma {:induction false} KeysAreIndependent(c: Config, calls: seq<KeyedCall>, key: string)
    requires c.Valid()
    ensures Lookup(LimiterRun(c, calls), key) == Lazy(c, OnKey(calls, key))
  {
    hide Acquire;
    if calls == [] {
    } else {
      var init, last := calls[..|calls| - 1], calls[|calls| - 1];
      KeysAreIndependent(c, init, key);
      var before := OnKey(init, key);
      if last.key == key {
        assert OnKey(calls, key) == before + [last.call];
        assert (before + [last.call])[..|before|] == before;
      } else {
        assert OnKey(calls, key) == before;
      }
    }
  }
}
