/** The session cache (src/users/session.ts): lookups suspend at the database read while
  * revocations bump generation counters. */
module SessionCache {
  import opened Options
  import opened Ordering

  type UserId = string

  datatype User = User(role: string, tokenVersion: nat)

  /** A token and the version it was issued with; an unversioned one counts as version 0. */
  datatype Token = Token(id: UserId, role: string, tv: nat)

  datatype Entry = Entry(at: int, user: Option<User>)

  /** The source joins both counters into one string; equality is the same. */
  datatype Generation = Generation(all: nat, own: nat)

  const CACHE_TTL_MS := 10_000
  const MAX_ENTRIES := 5_000

  predicate Matches(user: Option<User>, token: Token) {
    user.Some? && user.value.role == token.role && user.value.tokenVersion == token.tv
  }

  predicate Fresh(entry: Entry, now: int): (recent: bool)
    ensures recent <==> now - entry.at <= 10_000
  {
    now - entry.at <= CACHE_TTL_MS
  }

  function GenerationIn(globalGeneration: nat, generations: map<UserId, nat>, id: UserId): Generation {
    Generation(globalGeneration, if id in generations then generations[id] else 0)
  }

  /** The cache after an entry is stored; over the limit, `victim` goes. */
  function Stored(cache: map<UserId, Entry>, id: UserId, entry: Entry, victim: UserId): map<UserId, Entry> {
    var more := cache[id := entry];
    if |more| > MAX_ENTRIES then more - {victim} else more
  }

  /** `keys` lists the set, each key once. */
  ghost predicate KeysOf(ids: set<UserId>, keys: seq<UserId>) {
    && (forall id :: id in ids <==> id in keys)
    && (forall i, j :: 0 <= i < j < |keys| ==> keys[i] != keys[j])
  }

  /** Insertion order after an entry is stored and, over the limit, the oldest key is dropped. */
  function KeysStored(cache: map<UserId, Entry>, keys: seq<UserId>, id: UserId, entry: Entry): seq<UserId> {
    var more := if id in cache then keys else keys + [id];
    if |cache[id := entry]| > MAX_ENTRIES && more != [] then more[1..] else more
  }

  function OldestKey(keys: seq<UserId>, id: UserId): UserId {
    if keys == [] then id else keys[0]
  }

  lemma KeysGrow(ids: set<UserId>, keys: seq<UserId>, id: UserId)
    requires KeysOf(ids, keys)
    ensures var more := if id in ids then keys else keys + [id];
            KeysOf(ids + {id}, more) && more != [] && more[0] == OldestKey(keys, id)
  {
    if id !in ids {
      var more := keys + [id];
      assert forall i :: 0 <= i < |keys| ==> more[i] == keys[i] && more[i] in keys;
    }
  }

  lemma KeysShrink(ids: set<UserId>, keys: seq<UserId>)
    requires KeysOf(ids, keys) && keys != []
    ensures KeysOf(ids - {keys[0]}, keys[1..])
  {
    assert keys == [keys[0]] + keys[1..];
  }

  lemma KeysStayInOrder(cache: map<UserId, Entry>, keys: seq<UserId>, id: UserId, entry: Entry)
    requires KeysOf(cache.Keys, keys)
    ensures KeysOf(Stored(cache, id, entry, OldestKey(keys, id)).Keys, KeysStored(cache, keys, id, entry))
  {
    hide KeysOf;
    var more := if id in cache then keys else keys + [id];
    var grown := cache[id := entry];
    KeysGrow(cache.Keys, keys, id);
    KeysShrink(cache.Keys + {id}, more);
    assert grown.Keys == cache.Keys + {id};
    assert (grown - {OldestKey(keys, id)}).Keys == grown.Keys - {more[0]};
  }

  // ---------------------------------------------------------------------
  // The module's own state and code
  // ---------------------------------------------------------------------

  class Cache {
    var cache: map<UserId, Entry>
    /** The keys of `cache`, in insertion order. */
    var keys: seq<UserId>
    var generations: map<UserId, nat>
    var globalGeneration: nat

    ghost predicate Valid()
      reads this
    {
      KeysOf(cache.Keys, keys)
    }

    constructor ()
      ensures Valid() && cache == map[] && generations == map[] && globalGeneration == 0
    {
      cache, keys, generations, globalGeneration := map[], [], map[], 0;
    }

    function GenerationOf(id: UserId): Generation
      reads this
    {
      GenerationIn(globalGeneration, generations, id)
    }

    /** The code before the database read: a fresh entry answers at once, anything else captures the generation. */
    method Begin(token: Token, now: int) returns (answer: Option<bool>, generation: Generation)
      ensures generation == GenerationOf(token.id)
      ensures answer.Some? <==> token.id == "" || (token.id in cache && now - cache[token.id].at <= 10_000)
      ensures answer.Some? ==>
                (answer.value <==> && token.id != "" && cache[token.id].user.Some?
                                   && cache[token.id].user.value.role == token.role
                                   && cache[token.id].user.value.tokenVersion == token.tv)
    {
      generation := GenerationOf(token.id);
      if token.id == "" {
        return Some(false), generation;
      }
      if token.id !in cache || now - cache[token.id].at > CACHE_TTL_MS {
        return None, generation;
      }
      return Some(Matches(cache[token.id].user, token)), generation;
    }

    /** The code after it: what was read is stored only if no invalidation happened since, and answers in any case. */
    method Complete(token: Token, generation: Generation, user: Option<User>, now: int) returns (answer: bool)
      requires Valid()
      modifies this`cache, this`keys
      ensures Valid()
      ensures answer <==> user.Some? && user.value.role == token.role && user.value.tokenVersion == token.tv
      ensures generation != GenerationOf(token.id) ==> cache == old(cache)
      ensures generation == GenerationOf(token.id) ==>
                var more := old(cache)[token.id := Entry(now, user)];
                var oldest := if old(keys) == [] then token.id else old(keys)[0];
                && cache == Stored(old(cache), token.id, Entry(now, user), oldest)
                && cache == if |more| > 5_000 then more - {oldest} else more
    {
      hide KeysOf;
      var entry := Entry(now, user);
      if GenerationOf(token.id) == generation {
        KeysStayInOrder(cache, keys, token.id, entry);
        var oldest := OldestKey(keys, token.id);
        keys := KeysStored(cache, keys, token.id, entry);
        cache := cache[token.id := entry];
        if |cache| > MAX_ENTRIES {
          cache := cache - {oldest};
        }
      }
      answer := Matches(entry.user, token);
    }

    method InvalidateSessionCache(userId: Option<UserId>)
      requires Valid()
      modifies this
      ensures Valid()
      ensures userId.Some? && userId.value != "" ==>
                && cache == old(cache) - {userId.value} && globalGeneration == old(globalGeneration)
                && generations == old(generations)[userId.value := old(GenerationOf(userId.value)).own + 1]
      ensures userId.None? || userId.value == "" ==>
                cache == map[] && generations == old(generations) && globalGeneration == old(globalGeneration) + 1
    {
      if userId.Some? && userId.value != "" {
        generations := generations[userId.value := GenerationOf(userId.value).own + 1];
        cache := cache - {userId.value};
        RemoveKey(userId.value);
      } else {
        globalGeneration := globalGeneration + 1;
        cache, keys := map[], [];
      }
    }

    method RemoveKey(id: UserId)
      requires forall i, j :: 0 <= i < j < |keys| ==> keys[i] != keys[j]
      modifies this`keys
      ensures forall other :: other in keys <==> other in old(keys) && other != id
      ensures forall i, j :: 0 <= i < j < |keys| ==> keys[i] != keys[j]
    {
      var left: seq<UserId> := [];
      for k := 0 to |keys|
        invariant keys == old(keys)
        invariant forall other :: other in left <==> other in keys[..k] && other != id
        invariant forall i, j :: 0 <= i < j < |left| ==> left[i] != left[j]
      {
        if keys[k] != id {
          assert keys[k] !in keys[..k];
          left := left + [keys[k]];
        }
      }
      assert keys[..|keys|] == keys;
      keys := left;
    }
  }

  // ---------------------------------------------------------------------
  // The protocol: lookups, updates and invalidations, interleaved
  // ---------------------------------------------------------------------

  datatype LookupPhase =
    | Suspended                                   // waiting for the database
    | Read(user: Option<User>, version: nat)      // read, not resumed yet
    | Answered(answer: bool, version: nat)        // `version` is the user version the answer rests on

  /** `floor` is the newest version whose invalidation had returned when the lookup started. */
  datatype Lookup = Lookup(token: Token, generation: Generation, floor: nat, phase: LookupPhase)

  /** An update of a user row that has not been followed by its invalidation yet. */
  datatype Update = Update(id: UserId, version: nat, done: bool)

  datatype Sessions = Sessions(
    clock: int,
    histories: map<UserId, seq<Option<User>>>,     // every state the user's row has had
    cache: map<UserId, Entry>,
    seen: map<UserId, nat>,                         // the version each cached entry was read at
    generations: map<UserId, nat>,
    globalGeneration: nat,
    invalidated: map<UserId, nat>,                  // newest version whose invalidation has returned
    updates: seq<Update>,
    lookups: seq<Lookup>)
  {
    function History(id: UserId): seq<Option<User>> {
      if id in histories && histories[id] != [] then histories[id] else [None]
    }

    function Current(id: UserId): nat {
      |History(id)| - 1
    }

    function Floor(id: UserId): nat {
      if id in invalidated then invalidated[id] else 0
    }

    function GenerationOf(id: UserId): Generation {
      GenerationIn(globalGeneration, generations, id)
    }
  }

  datatype SessionStep =
    | Tick(to: int)
    | UpdateRow(id: UserId, user: Option<User>)     // role change, password change, sign out everywhere, deletion
    | Invalidate(k: nat)                            // of the user of that update, after it
    | InvalidateAll
    | StartLookup(token: Token)
    | ReadRow(k: nat)
    | Resume(k: nat, victim: UserId)

  predicate SessionEnabled(s: Sessions, step: SessionStep) {
    match step
    case Tick(to) => s.clock <= to
    case UpdateRow(id, _) => id != ""
    case Invalidate(k) => k < |s.updates|
    case InvalidateAll => true
    case StartLookup(_) => true
    case ReadRow(k) => k < |s.lookups| && s.lookups[k].phase.Suspended?
    case Resume(k, victim) =>
      && k < |s.lookups| && s.lookups[k].phase.Read?
      // The evicted key is one of the cache's keys
      && (|s.cache| >= MAX_ENTRIES ==> victim in s.cache)
  }

  /** Every update so far has been followed by an invalidation. */
  function AllDone(updates: seq<Update>): (done: seq<Update>)
    ensures |done| == |updates|
    ensures forall i :: 0 <= i < |updates| ==> done[i] == Update(updates[i].id, updates[i].version, true)
  {
    seq(|updates|, i requires 0 <= i < |updates| => updates[i].(done := true))
  }

  function SessionApply(s: Sessions, step: SessionStep): Sessions
    requires SessionEnabled(s, step)
  {
    match step
    case Tick(to) => s.(clock := to)
    case UpdateRow(id, user) =>
      s.(histories := s.histories[id := s.History(id) + [user]],
         updates := s.updates + [Update(id, s.Current(id) + 1, false)])
    case Invalidate(k) =>
      var u := s.updates[k];
      s.(cache := s.cache - {u.id}, seen := s.seen - {u.id},
         generations := s.generations[u.id := s.GenerationOf(u.id).own + 1],
         invalidated := s.invalidated[u.id := if s.Floor(u.id) < u.version then u.version else s.Floor(u.id)],
         updates := s.updates[k := u.(done := true)])
    case InvalidateAll =>
      s.(cache := map[], seen := map[], globalGeneration := s.globalGeneration + 1,
         invalidated := map id | id in s.histories :: s.Current(id), updates := AllDone(s.updates))
    case StartLookup(token) =>
      var hit := token.id in s.cache && token.id in s.seen && Fresh(s.cache[token.id], s.clock);
      var phase :=
        if token.id == "" then Answered(false, 0)
        else if hit then Answered(Matches(s.cache[token.id].user, token), s.seen[token.id])
        else Suspended;
      s.(lookups := s.lookups + [Lookup(token, s.GenerationOf(token.id), s.Floor(token.id), phase)])
    case ReadRow(k) =>
      var l := s.lookups[k];
      var version := s.Current(l.token.id);
      s.(lookups := s.lookups[k := l.(phase := Read(s.History(l.token.id)[version], version))])
    case Resume(k, victim) =>
      var l := s.lookups[k];
      var entry := Entry(s.clock, l.phase.user);
      var store := s.GenerationOf(l.token.id) == l.generation;
      s.(cache := if store then Stored(s.cache, l.token.id, entry, victim) else s.cache,
         seen := if store then
                   (if |s.cache[l.token.id := entry]| > MAX_ENTRIES
                    then s.seen[l.token.id := l.phase.version] - {victim}
                    else s.seen[l.token.id := l.phase.version])
                 else s.seen,
         lookups := s.lookups[k := l.(phase := Answered(Matches(l.phase.user, l.token), l.phase.version))])
  }

  // ---------------------------------------------------------------------
  // The invariant
  // ---------------------------------------------------------------------

  ghost predicate CacheSound(s: Sessions, id: UserId) {
    && (id in s.cache <==> id in s.seen)
    && (id in s.cache ==>
          && s.Floor(id) <= s.seen[id] <= s.Current(id)
          && s.cache[id].user == s.History(id)[s.seen[id]])
  }

  /** The row's present version has been invalidated, or its update is still waiting for that. */
  ghost predicate UserSound(s: Sessions, id: UserId) {
    && s.Floor(id) <= s.Current(id)
    && (s.Floor(id) == s.Current(id) || Waiting(s, id))
  }

  ghost predicate Waiting(s: Sessions, id: UserId) {
    exists k :: 0 <= k < |s.updates| && !s.updates[k].done && s.updates[k].id == id
                && s.updates[k].version == s.Current(id)
  }

  predicate AtMost(g: Generation, h: Generation) {
    g.all <= h.all && g.own <= h.own
  }

  ghost predicate LookupSound(s: Sessions, l: Lookup) {
    var id := l.token.id;
    && l.floor <= s.Floor(id)
    && AtMost(l.generation, s.GenerationOf(id))
    && (l.generation == s.GenerationOf(id) ==> l.floor == s.Floor(id))
    && match l.phase
       case Suspended => id != ""
       case Read(user, version) =>
         id != "" && l.floor <= version <= s.Current(id) && user == s.History(id)[version]
       case Answered(answer, version) =>
         if id == "" then !answer
         else l.floor <= version <= s.Current(id) && (answer <==> Matches(s.History(id)[version], l.token))
  }

  ghost predicate LookupsSound(s: Sessions) {
    forall k :: 0 <= k < |s.lookups| ==> LookupSound(s, s.lookups[k])
  }

  ghost predicate UpdateSound(s: Sessions, u: Update) {
    u.version <= s.Current(u.id) && (u.done ==> u.version <= s.Floor(u.id))
  }

  ghost predicate SessionInv(s: Sessions) {
    && (forall id :: CacheSound(s, id))
    && (forall id :: UserSound(s, id))
    && (forall k :: 0 <= k < |s.updates| ==> UpdateSound(s, s.updates[k]))
    && LookupsSound(s)
    && |s.cache| <= MAX_ENTRIES
  }

  lemma UpdateKeeps(s: Sessions, id: UserId, user: Option<User>)
    requires SessionInv(s) && id != ""
    ensures SessionInv(SessionApply(s, UpdateRow(id, user)))
  {
    hide CacheSound, UserSound, UpdateSound, LookupSound;
    var s' := SessionApply(s, UpdateRow(id, user));
    forall other
      ensures CacheSound(s', other) && UserSound(s', other)
    {
      UpdateKeepsUser(s, id, user, other);
    }
    forall k | 0 <= k < |s'.updates|
      ensures UpdateSound(s', s'.updates[k])
    {
      UpdateKeepsUpdate(s, id, user, k);
    }
    forall k | 0 <= k < |s'.lookups|
      ensures LookupSound(s', s'.lookups[k])
    {
      UpdateKeepsLookup(s, id, user, s.lookups[k]);
    }
  }

  /** What an update does to one user's history; nothing else about the user changes. */
  lemma UpdateHistories(s: Sessions, id: UserId, user: Option<User>, other: UserId)
    requires id != ""
    ensures var s' := SessionApply(s, UpdateRow(id, user));
            && s'.History(other) == s.History(other) + (if other == id then [user] else [])
            && s'.Current(other) == s.Current(other) + (if other == id then 1 else 0)
            && s'.Floor(other) == s.Floor(other) && s'.GenerationOf(other) == s.GenerationOf(other)
            && s'.cache == s.cache && s'.seen == s.seen && s'.lookups == s.lookups
            && s'.updates == s.updates + [Update(id, s.Current(id) + 1, false)]
  {
  }

  lemma UpdateKeepsUser(s: Sessions, id: UserId, user: Option<User>, other: UserId)
    requires id != "" && CacheSound(s, other) && UserSound(s, other)
    ensures var s' := SessionApply(s, UpdateRow(id, user)); CacheSound(s', other) && UserSound(s', other)
  {
    var s' := SessionApply(s, UpdateRow(id, user));
    UpdateHistories(s, id, user, other);
    hide SessionApply, SessionEnabled;
    if other == id {
      var k := |s.updates|;
      assert s'.updates[k] == Update(id, s'.Current(id), false);
    } else if s.Floor(other) != s.Current(other) {
      var k :| 0 <= k < |s.updates| && !s.updates[k].done && s.updates[k].id == other
               && s.updates[k].version == s.Current(other);
      assert s'.updates[k] == s.updates[k];
    }
  }

  lemma UpdateKeepsUpdate(s: Sessions, id: UserId, user: Option<User>, k: nat)
    requires id != "" && k <= |s.updates| && (k < |s.updates| ==> UpdateSound(s, s.updates[k]))
    ensures var s' := SessionApply(s, UpdateRow(id, user)); UpdateSound(s', s'.updates[k])
  {
    var s' := SessionApply(s, UpdateRow(id, user));
    UpdateHistories(s, id, user, s'.updates[k].id);
    hide SessionApply, SessionEnabled;
  }

  lemma UpdateKeepsLookup(s: Sessions, id: UserId, user: Option<User>, l: Lookup)
    requires id != "" && LookupSound(s, l)
    ensures LookupSound(SessionApply(s, UpdateRow(id, user)), l)
  {
    UpdateHistories(s, id, user, l.token.id);
    hide SessionApply, SessionEnabled;
  }

  lemma InvalidateKeeps(s: Sessions, k: nat)
    requires SessionInv(s) && SessionEnabled(s, Invalidate(k))
    ensures SessionInv(SessionApply(s, Invalidate(k)))
  {
    hide CacheSound, UserSound, UpdateSound, LookupsSound;
    var s' := SessionApply(s, Invalidate(k));
    forall id
      ensures CacheSound(s', id) && UserSound(s', id)
    {
      InvalidateKeepsUser(s, k, id);
    }
    forall j | 0 <= j < |s'.updates|
      ensures UpdateSound(s', s'.updates[j])
    {
      InvalidateKeepsUpdate(s, k, j);
    }
    InvalidateKeepsLookups(s, k);
    SubsetSize(s'.cache.Keys, s.cache.Keys);
  }

  lemma InvalidateKeepsUpdate(s: Sessions, k: nat, j: nat)
    requires SessionEnabled(s, Invalidate(k)) && j < |s.updates| && UpdateSound(s, s.updates[j])
    ensures var s' := SessionApply(s, Invalidate(k)); UpdateSound(s', s'.updates[j])
  {
    assert SessionApply(s, Invalidate(k)).histories == s.histories;
  }

  lemma InvalidateKeepsUser(s: Sessions, k: nat, id: UserId)
    requires SessionEnabled(s, Invalidate(k))
    requires CacheSound(s, id) && UserSound(s, id) && UpdateSound(s, s.updates[k])
    ensures CacheSound(SessionApply(s, Invalidate(k)), id) && UserSound(SessionApply(s, Invalidate(k)), id)
  {
    hide SessionApply, SessionEnabled, UserSound;
    InvalidateFloors(s, k, id);
    InvalidateKeepsWaiting(s, k, id);
  }

  lemma InvalidateKeepsWaiting(s: Sessions, k: nat, id: UserId)
    requires SessionEnabled(s, Invalidate(k))
    requires UserSound(s, id) && UpdateSound(s, s.updates[k])
    ensures UserSound(SessionApply(s, Invalidate(k)), id)
  {
    var s' := SessionApply(s, Invalidate(k));
    InvalidateFloors(s, k, id);
    hide SessionApply, SessionEnabled;
    if s'.Floor(id) != s'.Current(id) {
      var j :| 0 <= j < |s.updates| && !s.updates[j].done && s.updates[j].id == id
               && s.updates[j].version == s.Current(id);
      assert j != k && s'.updates[j] == s.updates[j];
    }
  }

  lemma InvalidateKeepsLookups(s: Sessions, k: nat)
    requires SessionEnabled(s, Invalidate(k)) && LookupsSound(s)
    ensures LookupsSound(SessionApply(s, Invalidate(k)))
  {
    var s' := SessionApply(s, Invalidate(k));
    forall j | 0 <= j < |s'.lookups|
      ensures LookupSound(s', s'.lookups[j])
    {
      InvalidateKeepsLookup(s, k, s.lookups[j]);
    }
  }

  lemma InvalidateKeepsLookup(s: Sessions, k: nat, l: Lookup)
    requires SessionEnabled(s, Invalidate(k)) && LookupSound(s, l)
    ensures LookupSound(SessionApply(s, Invalidate(k)), l)
  {
    InvalidateFloors(s, k, l.token.id);
    hide SessionApply, SessionEnabled;
  }

  /** What an invalidation does to one user's counters, and to the cache. */
  lemma InvalidateFloors(s: Sessions, k: nat, id: UserId)
    requires SessionEnabled(s, Invalidate(k))
    ensures var s', u := SessionApply(s, Invalidate(k)), s.updates[k];
            && s'.histories == s.histories && s'.History(id) == s.History(id) && s'.Current(id) == s.Current(id)
            && s'.updates == s.updates[k := u.(done := true)]
            && s'.Floor(id) == (if id == u.id && s.Floor(id) < u.version then u.version else s.Floor(id))
            && s'.GenerationOf(id).all == s.GenerationOf(id).all
            && s'.GenerationOf(id).own == s.GenerationOf(id).own + (if id == u.id then 1 else 0)
            && s'.cache == s.cache - {u.id} && s'.seen == s.seen - {u.id} && s'.lookups == s.lookups
  {
  }

  lemma InvalidateAllKeeps(s: Sessions)
    requires SessionInv(s)
    ensures SessionInv(SessionApply(s, InvalidateAll))
  {
    var s' := SessionApply(s, InvalidateAll);
    forall id
      ensures CacheSound(s', id) && UserSound(s', id)
    {
      assert s'.History(id) == s.History(id);
    }
    forall k | 0 <= k < |s'.updates|
      ensures UpdateSound(s', s'.updates[k])
    {
      assert UpdateSound(s, s.updates[k]);
    }
    forall k | 0 <= k < |s'.lookups|
      ensures LookupSound(s', s'.lookups[k])
    {
      assert LookupSound(s, s.lookups[k]) && UserSound(s, s.lookups[k].token.id);
    }
  }

  /** Steps that leave rows, updates, floors and per-user counters alone. */
  ghost predicate SameHistories(s: Sessions, s': Sessions) {
    && s'.histories == s.histories && s'.updates == s.updates && s'.invalidated == s.invalidated
    && s'.generations == s.generations && s.globalGeneration <= s'.globalGeneration
  }

  lemma SameHistoriesKeep(s: Sessions, s': Sessions)
    requires SessionInv(s) && SameHistories(s, s')
    ensures forall id :: UserSound(s', id)
    ensures forall k :: 0 <= k < |s'.updates| ==> UpdateSound(s', s'.updates[k])
    ensures forall k :: 0 <= k < |s.lookups| ==> LookupSound(s', s.lookups[k])
  {
    forall k | 0 <= k < |s.updates|
      ensures UpdateSound(s', s.updates[k])
    {
      assert UpdateSound(s, s.updates[k]);
    }
    forall k | 0 <= k < |s.lookups|
      ensures LookupSound(s', s.lookups[k])
    {
      assert LookupSound(s, s.lookups[k]);
    }
    forall id
      ensures UserSound(s', id)
    {
      assert UserSound(s, id);
      if Waiting(s, id) {
        assert Waiting(s', id);
      }
    }
  }

  lemma StartKeeps(s: Sessions, token: Token)
    requires SessionInv(s)
    ensures SessionInv(SessionApply(s, StartLookup(token)))
  {
    var s' := SessionApply(s, StartLookup(token));
    SameHistoriesKeep(s, s');
    assert CacheSound(s, token.id) && UserSound(s, token.id);
    forall id
      ensures CacheSound(s', id)
    {
      assert CacheSound(s, id);
    }
    assert LookupSound(s', s'.lookups[|s.lookups|]);
  }

  lemma ReadKeeps(s: Sessions, k: nat)
    requires SessionInv(s) && SessionEnabled(s, ReadRow(k))
    ensures SessionInv(SessionApply(s, ReadRow(k)))
  {
    var s' := SessionApply(s, ReadRow(k));
    SameHistoriesKeep(s, s');
    assert LookupSound(s, s.lookups[k]) && UserSound(s, s.lookups[k].token.id);
    forall id
      ensures CacheSound(s', id)
    {
      assert CacheSound(s, id);
    }
  }

  lemma ResumeKeeps(s: Sessions, k: nat, victim: UserId)
    requires SessionInv(s) && SessionEnabled(s, Resume(k, victim))
    ensures SessionInv(SessionApply(s, Resume(k, victim)))
  {
    var s' := SessionApply(s, Resume(k, victim));
    SameHistoriesKeep(s, s');
    var l := s.lookups[k];
    assert LookupSound(s, l) && LookupSound(s', l);
    assert LookupSound(s', s'.lookups[k]);
    forall id
      ensures CacheSound(s', id)
    {
      assert CacheSound(s, id);
      if s.GenerationOf(l.token.id) == l.generation {
        StoreKeeps(s, s', l, Entry(s.clock, l.phase.user), victim, id);
      }
    }
    StoredSize(s.cache, l.token.id, Entry(s.clock, l.phase.user), victim);
  }

  lemma StoreKeeps(s: Sessions, s': Sessions, l: Lookup, entry: Entry, victim: UserId, id: UserId)
    requires CacheSound(s, id) && LookupSound(s, l) && l.phase.Read? && entry.user == l.phase.user
    requires s.GenerationOf(l.token.id) == l.generation
    requires s'.histories == s.histories && s'.invalidated == s.invalidated
    requires s'.cache == Stored(s.cache, l.token.id, entry, victim)
    requires s'.seen ==
             if |s.cache[l.token.id := entry]| > MAX_ENTRIES then s.seen[l.token.id := l.phase.version] - {victim}
                        else s.seen[l.token.id := l.phase.version]
    ensures CacheSound(s', id)
  {
  }

  lemma StoredSize(cache: map<UserId, Entry>, id: UserId, entry: Entry, victim: UserId)
    requires |cache| <= MAX_ENTRIES && (|cache| >= MAX_ENTRIES ==> victim in cache)
    ensures |Stored(cache, id, entry, victim)| <= MAX_ENTRIES
  {
    var more := cache[id := entry];
    assert more.Keys == cache.Keys + {id};
    if |more| > MAX_ENTRIES {
      assert (more - {victim}).Keys == more.Keys - {victim};
    }
  }

  lemma SessionStepKeeps(s: Sessions, step: SessionStep)
    requires SessionInv(s) && SessionEnabled(s, step)
    ensures SessionInv(SessionApply(s, step))
  {
    match step
    case Tick(to) =>
      SameHistoriesKeep(s, SessionApply(s, step));
      assert forall id :: CacheSound(s, id) ==> CacheSound(SessionApply(s, step), id);
    case UpdateRow(id, user) => UpdateKeeps(s, id, user);
    case Invalidate(k) => InvalidateKeeps(s, k);
    case InvalidateAll => InvalidateAllKeeps(s);
    case StartLookup(token) => StartKeeps(s, token);
    case ReadRow(k) => ReadKeeps(s, k);
    case Resume(k, victim) => ResumeKeeps(s, k, victim);
  }

  // ---------------------------------------------------------------------
  // What every interleaving guarantees
  // ---------------------------------------------------------------------

  ghost predicate SessionRun(s: Sessions, steps: seq<SessionStep>)
    decreases |steps|
  {
    steps == [] || (SessionEnabled(s, steps[0]) && SessionRun(SessionApply(s, steps[0]), steps[1..]))
  }

  ghost function SessionsAfter(s: Sessions, steps: seq<SessionStep>): Sessions
    requires SessionRun(s, steps)
    decreases |steps|
  {
    if steps == [] then s else SessionsAfter(SessionApply(s, steps[0]), steps[1..])
  }

  lemma {:induction false} SessionRunsKeepInv(s: Sessions, steps: seq<SessionStep>)
    requires SessionInv(s) && SessionRun(s, steps)
    ensures SessionInv(SessionsAfter(s, steps))
    decreases |steps|
  {
    if steps == [] {
    } else {
      SessionStepKeeps(s, steps[0]);
      SessionRunsKeepInv(SessionApply(s, steps[0]), steps[1..]);
    }
  }

  /** A process that has just started, over any user table. */
  ghost predicate Started(s: Sessions) {
    && s.cache == map[] && s.seen == map[] && s.generations == map[] && s.globalGeneration == 0
    && s.invalidated == map[] && s.updates == [] && s.lookups == []
    && forall id :: id in s.histories ==> |s.histories[id]| == 1
  }

  /** Unless an update of the user is still waiting for its invalidation, a cached entry equals the user's row, and
    * so does what a suspended lookup has read if it would still be stored. */
  lemma CachedEqualsDatabase(s: Sessions, steps: seq<SessionStep>, id: UserId)
    requires Started(s) && SessionRun(s, steps)
    ensures var t := SessionsAfter(s, steps);
            (forall k :: 0 <= k < |t.updates| && t.updates[k].id == id ==> t.updates[k].done) ==>
              && (id in t.cache ==> t.cache[id].user == t.History(id)[t.Current(id)])
              && forall k :: 0 <= k < |t.lookups| && t.lookups[k].token.id == id && t.lookups[k].phase.Read?
                             && t.lookups[k].generation == t.GenerationOf(id) ==>
                               t.lookups[k].phase.user == t.History(id)[t.Current(id)]
  {
    StartedIsSound(s);
    SessionRunsKeepInv(s, steps);
    var t := SessionsAfter(s, steps);
    assert CacheSound(t, id) && UserSound(t, id);
    forall k | 0 <= k < |t.lookups| && t.lookups[k].token.id == id && t.lookups[k].phase.Read?
               && t.lookups[k].generation == t.GenerationOf(id)
      ensures !Waiting(t, id) ==> t.lookups[k].phase.user == t.History(id)[t.Current(id)]
    {
      assert LookupSound(t, t.lookups[k]);
    }
  }

  lemma StartedIsSound(s: Sessions)
    requires Started(s)
    ensures SessionInv(s)
  {
  }

  lemma StepKeepsLookup(s: Sessions, step: SessionStep, n: nat)
    requires SessionEnabled(s, step) && n < |s.lookups|
    ensures var t := SessionApply(s, step);
            n < |t.lookups| && t.lookups[n].token == s.lookups[n].token && t.lookups[n].floor == s.lookups[n].floor
  {
  }

  /** Later steps never change which token a lookup is for, nor its floor. */
  lemma {:induction false} LookupsKeepIdentity(s: Sessions, steps: seq<SessionStep>, n: nat)
    requires SessionRun(s, steps) && n < |s.lookups|
    ensures var t := SessionsAfter(s, steps);
            n < |t.lookups| && t.lookups[n].token == s.lookups[n].token && t.lookups[n].floor == s.lookups[n].floor
    decreases |steps|
  {
    if steps == [] {
    } else {
      StepKeepsLookup(s, steps[0], n);
      hide SessionApply, SessionEnabled;
      LookupsKeepIdentity(SessionApply(s, steps[0]), steps[1..], n);
    }
  }

  /** A session lookup never outlives a revocation. After any run in which an update of the token's user has had its
    * invalidation, a call that starts now and accepts at any later time does so by a state of the row no older than
    * that update, with the token's role and version, whatever happens while it is suspended. */
  lemma RevokedTokenIsNeverAccepted(
    s: Sessions, before: seq<SessionStep>, k: nat, token: Token, after: seq<SessionStep>)
    requires Started(s) && SessionRun(s, before)
    requires k < |SessionsAfter(s, before).updates|
    requires SessionsAfter(s, before).updates[k].done && SessionsAfter(s, before).updates[k].id == token.id
    requires SessionRun(SessionApply(SessionsAfter(s, before), StartLookup(token)), after)
    ensures var revoked := SessionsAfter(s, before).updates[k].version;
            var t := SessionsAfter(SessionApply(SessionsAfter(s, before), StartLookup(token)), after);
            var n := |SessionsAfter(s, before).lookups|;
            && n < |t.lookups| && t.lookups[n].token == token
            && (t.lookups[n].phase.Answered? && t.lookups[n].phase.answer ==>
                  && revoked <= t.lookups[n].phase.version <= t.Current(token.id)
                  && var row := t.History(token.id)[t.lookups[n].phase.version];
                     row.Some? && row.value.role == token.role && row.value.tokenVersion == token.tv)
  {
    StartedIsSound(s);
    SessionRunsKeepInv(s, before);
    var t0 := SessionsAfter(s, before);
    var n := |t0.lookups|;
    SessionStepKeeps(t0, StartLookup(token));
    var t1 := SessionApply(t0, StartLookup(token));
    SessionRunsKeepInv(t1, after);
    LookupsKeepIdentity(t1, after, n);
    var t := SessionsAfter(t1, after);
    assert LookupSound(t, t.lookups[n]);
    assert UpdateSound(t0, t0.updates[k]);
  }

  /** Hence from a revocation on a token is refused until the row has its role and version in some later state: after
    * the user is deleted or gets another role, as long as no later state has the old one with the old version; and for
    * good once the version is beyond the token's and versions never go back. */
  lemma RevokedTokenIsRefused(
    s: Sessions, before: seq<SessionStep>, k: nat, token: Token, after: seq<SessionStep>)
    requires Started(s) && SessionRun(s, before)
    requires k < |SessionsAfter(s, before).updates|
    requires SessionsAfter(s, before).updates[k].done && SessionsAfter(s, before).updates[k].id == token.id
    requires SessionRun(SessionApply(SessionsAfter(s, before), StartLookup(token)), after)
    ensures var revoked := SessionsAfter(s, before).updates[k].version;
            var t := SessionsAfter(SessionApply(SessionsAfter(s, before), StartLookup(token)), after);
            var n := |SessionsAfter(s, before).lookups|;
            || (forall v :: revoked <= v < |t.History(token.id)| ==>
                  var row := t.History(token.id)[v];
                  row.None? || row.value.role != token.role || row.value.tokenVersion != token.tv)
            || Outdated(t.History(token.id), revoked, token) ==>
              n < |t.lookups| && (t.lookups[n].phase.Answered? ==> !t.lookups[n].phase.answer)
  {
    hide SessionApply, SessionsAfter, SessionRun;
    RevokedTokenIsNeverAccepted(s, before, k, token, after);
    var t := SessionsAfter(SessionApply(SessionsAfter(s, before), StartLookup(token)), after);
    var revoked := SessionsAfter(s, before).updates[k].version;
    if Outdated(t.History(token.id), revoked, token) {
      OutdatedStaysBeyond(t.History(token.id), revoked, token);
    }
  }

  /** From `version` on the row's token version is beyond the token's and never smaller than before. */
  predicate Outdated(history: seq<Option<User>>, version: nat, token: Token) {
    && version < |history|
    && (history[version].Some? ==> token.tv < history[version].value.tokenVersion)
    && forall v, next :: version <= v < |history| - 1 && next == v + 1 ==> NoOlder(history[v], history[next], token)
  }

  /** A user that is changed keeps or raises its token version; one that is deleted is not created again with an old
    * one. */
  predicate NoOlder(earlier: Option<User>, later: Option<User>, token: Token) {
    later.Some? ==> later.value.tokenVersion >= if earlier.Some? then earlier.value.tokenVersion else token.tv + 1
  }

  lemma OutdatedStaysBeyond(history: seq<Option<User>>, version: nat, token: Token)
    requires Outdated(history, version, token)
    ensures forall v :: version <= v < |history| && history[v].Some? ==> token.tv < history[v].value.tokenVersion
  {
    for v := version to |history|
      invariant forall u :: version <= u < v && history[u].Some? ==> token.tv < history[u].value.tokenVersion
      invariant v < |history| ==> history[v].Some? ==> token.tv < history[v].value.tokenVersion
    {
      var next := v + 1;
      if next < |history| {
        assert NoOlder(history[v], history[next], token);
      }
    }
  }

  // ---------------------------------------------------------------------
  // When nothing changes, the lookup is exact
  // ---------------------------------------------------------------------

  /** No step updates the user's row. */
  ghost predicate LeavesRow(steps: seq<SessionStep>, id: UserId) {
    forall i :: 0 <= i < |steps| && steps[i].UpdateRow? ==> steps[i].id != id
  }

  lemma {:induction false} RowStays(s: Sessions, steps: seq<SessionStep>, id: UserId)
    requires SessionRun(s, steps) && LeavesRow(steps, id)
    ensures SessionsAfter(s, steps).History(id) == s.History(id)
    decreases |steps|
  {
    if steps == [] {
    } else {
      var next := SessionApply(s, steps[0]);
      assert next.History(id) == s.History(id);
      forall i | 0 <= i < |steps[1..]| && steps[1..][i].UpdateRow?
        ensures steps[1..][i].id != id
      {
        assert steps[1..][i] == steps[i + 1];
      }
      hide SessionApply;
      RowStays(next, steps[1..], id);
    }
  }

  lemma StartKeepsRow(s: Sessions, token: Token)
    ensures var t := SessionApply(s, StartLookup(token));
            && t.History(token.id) == s.History(token.id)
            && |t.lookups| == |s.lookups| + 1 && t.lookups[|s.lookups|].token == token
            && t.lookups[|s.lookups|].floor == s.Floor(token.id)
  {
  }

  /** Once every update of the user has had its invalidation, the newest state of the row has. */
  lemma NothingWaits(s: Sessions, id: UserId)
    requires SessionInv(s) && forall k :: 0 <= k < |s.updates| && s.updates[k].id == id ==> s.updates[k].done
    ensures s.Floor(id) == s.Current(id)
  {
    assert UserSound(s, id);
  }

  lemma AnswerMeans(s: Sessions, n: nat)
    requires SessionInv(s) && n < |s.lookups| && s.lookups[n].phase.Answered? && s.lookups[n].token.id != ""
    requires s.lookups[n].floor == s.Current(s.lookups[n].token.id)
    ensures var token := s.lookups[n].token;
            var row := s.History(token.id)[s.Current(token.id)];
            s.lookups[n].phase.answer <==>
              row.Some? && row.value.role == token.role && row.value.tokenVersion == token.tv
  {
    assert LookupSound(s, s.lookups[n]);
  }

  /** When no update of the user waits for its invalidation and the row stays as it is, whatever else happens, a lookup
    * accepts exactly the tokens with the row's role and version. */
  lemma UnchangedUserIsAnsweredExactly(
    s: Sessions, before: seq<SessionStep>, token: Token, after: seq<SessionStep>)
    requires Started(s) && SessionRun(s, before) && token.id != ""
    requires var t := SessionsAfter(s, before);
             forall k :: 0 <= k < |t.updates| && t.updates[k].id == token.id ==> t.updates[k].done
    requires SessionRun(SessionApply(SessionsAfter(s, before), StartLookup(token)), after)
    requires LeavesRow(after, token.id)
    ensures var t := SessionsAfter(SessionApply(SessionsAfter(s, before), StartLookup(token)), after);
            var n := |SessionsAfter(s, before).lookups|;
            var row := t.History(token.id)[t.Current(token.id)];
            && row == SessionsAfter(s, before).History(token.id)[SessionsAfter(s, before).Current(token.id)]
            && n < |t.lookups| && t.lookups[n].token == token
            && (t.lookups[n].phase.Answered? ==>
                  (t.lookups[n].phase.answer <==>
                   row.Some? && row.value.role == token.role && row.value.tokenVersion == token.tv))
  {
    hide SessionApply, SessionsAfter, SessionRun, SessionInv, Started;
    StartedIsSound(s);
    SessionRunsKeepInv(s, before);
    var t0 := SessionsAfter(s, before);
    var n := |t0.lookups|;
    var t1 := SessionApply(t0, StartLookup(token));
    SessionStepKeeps(t0, StartLookup(token));
    SessionRunsKeepInv(t1, after);
    StartKeepsRow(t0, token);
    NothingWaits(t0, token.id);
    LookupsKeepIdentity(t1, after, n);
    RowStays(t1, after, token.id);
    var t := SessionsAfter(t1, after);
    if t.lookups[n].phase.Answered? {
      AnswerMeans(t, n);
    }
  }
}
