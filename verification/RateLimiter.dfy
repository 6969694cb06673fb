/**
 The per-key fixed-window limiter with at most 10000 buckets
 (backend/internal/httpapi/middleware.go). Times are nanoseconds. Clock readings
 do not go back in lock order, and keys are not empty.
 */
module RateLimiter {
  import opened Wrappers
  import opened Collections

  const MAX_BUCKETS := 10000
  const SECOND := 1_000_000_000

  datatype Bucket = Bucket(started: int, count: int)

  datatype State = State(buckets: map<string, Bucket>, lastCleanup: Option<int>)

  /** One call of `allow`, with its answer and the key it evicted, if it did. */
  datatype Event = Event(key: string, at: int, allowed: bool, evicted: Option<string>)

  predicate Live(window: int, buckets: map<string, Bucket>, key: string, now: int) {
    key in buckets && now - buckets[key].started < window
  }

  function Unexpired(window: int, buckets: map<string, Bucket>, now: int): map<string, Bucket> {
    map k | k in buckets && Live(window, buckets, k, now) :: buckets[k]
  }

  function CleanupInterval(window: int): int {
    if window < SECOND then window else SECOND
  }

  predicate Oldest(buckets: map<string, Bucket>, key: string) {
    key in buckets && forall k :: k in buckets ==> buckets[key].started <= buckets[k].started
  }

  // ---------- one call ----------

  /** How room is made for a new key: `room` is what stays. Of several oldest buckets any may go. */
  ghost predicate MakesRoom(window: int, s: State, e: Event, room: map<string, Bucket>, cleanup: Option<int>) {
    if e.key in s.buckets || |s.buckets| < MAX_BUCKETS then
      room == s.buckets && cleanup == s.lastCleanup && e.evicted.None?
    else
      var due := s.lastCleanup.None? || e.at - s.lastCleanup.value >= CleanupInterval(window);
      var cleaned := if due then Unexpired(window, s.buckets, e.at) else s.buckets;
      && cleanup == (if due then Some(e.at) else s.lastCleanup)
      && (if |cleaned| >= MAX_BUCKETS
          then e.evicted.Some? && Oldest(cleaned, e.evicted.value) && room == cleaned - {e.evicted.value}
          else e.evicted.None? && room == cleaned)
  }

  ghost predicate Step(limit: int, window: int, s: State, e: Event, s': State) {
    if limit <= 0 || window <= 0 then
      !e.allowed && e.evicted.None? && s' == s
    else if Live(window, s.buckets, e.key, e.at) then
      && e.evicted.None? && s'.lastCleanup == s.lastCleanup
      && e.allowed == (s.buckets[e.key].count < limit)
      && s'.buckets == if e.allowed then s.buckets[e.key := Bucket(s.buckets[e.key].started, s.buckets[e.key].count + 1)] else s.buckets
    else
      && e.allowed
      && e.key in s'.buckets && s'.buckets[e.key] == Bucket(e.at, 1)
      && (exists room {:trigger MakesRoom(window, s, e, room, s'.lastCleanup)} ::
            MakesRoom(window, s, e, room, s'.lastCleanup) && s'.buckets == room[e.key := Bucket(e.at, 1)])
  }

  class Limiter {
    const limit: int
    const window: int
    var lastCleanup: Option<int>
    var buckets: map<string, Bucket>

    constructor (limit: int, window: int)
      ensures this.limit == limit && this.window == window && Contents() == State(map[], None)
    {
      this.limit, this.window, lastCleanup, buckets := limit, window, None, map[];
    }

    function Contents(): State
      reads this
    {
      State(buckets, lastCleanup)
    }

    method CleanupExpired(now: int)
      modifies this`buckets
      ensures buckets == Unexpired(window, old(buckets), now)
    {
      var keys := buckets.Keys;
      while keys != {}
        invariant keys <= old(buckets).Keys
        invariant forall k :: k in buckets <==> k in old(buckets) && (k in keys || Live(window, old(buckets), k, now))
        invariant forall k :: k in buckets ==> buckets[k] == old(buckets)[k]
        decreases |keys|
      {
        var key :| key in keys;
        keys := keys - {key};
        if now - buckets[key].started >= window {
          buckets := buckets - {key};
        }
      }
    }

    /** Goes through the buckets in any order; the empty string stands for "none yet". */
    method EvictOldest() returns (ghost evicted: string)
      requires buckets != map[] && "" !in buckets
      modifies this`buckets
      ensures Oldest(old(buckets), evicted) && buckets == old(buckets) - {evicted}
    {
      var oldestKey, oldestAt, keys := "", 0, buckets.Keys;
      assert keys != {};
      while keys != {}
        invariant keys <= buckets.Keys && buckets == old(buckets)
        invariant oldestKey == "" ==> keys == buckets.Keys
        invariant oldestKey != "" ==> oldestKey in buckets && oldestAt == buckets[oldestKey].started
        invariant oldestKey != "" ==> forall k :: k in buckets && k !in keys ==> oldestAt <= buckets[k].started
        decreases |keys|
      {
        var key :| key in keys;
        keys := keys - {key};
        if oldestKey == "" || buckets[key].started < oldestAt {
          oldestKey, oldestAt := key, buckets[key].started;
        }
      }
      evicted := oldestKey;
      if oldestKey != "" {
        buckets := buckets - {oldestKey};
      }
    }

    method Allow(key: string, now: int) returns (allowed: bool, ghost evicted: Option<string>)
      requires "" !in buckets && key != ""
      modifies this
      ensures Step(limit, window, old(Contents()), Event(key, now, allowed, evicted), Contents())
      ensures "" !in buckets
    {
      evicted := None;
      if limit <= 0 || window <= 0 {
        return false, None;
      }
      if key !in buckets || now - buckets[key].started >= window {
        if key !in buckets && |buckets| >= MAX_BUCKETS {
          if lastCleanup.None? || now - lastCleanup.value >= CleanupInterval(window) {
            CleanupExpired(now);
            lastCleanup := Some(now);
          }
          if |buckets| >= MAX_BUCKETS {
            ghost var gone := EvictOldest();
            evicted := Some(gone);
          }
        }
        assert MakesRoom(window, old(Contents()), Event(key, now, true, evicted), buckets, lastCleanup);
        buckets := buckets[key := Bucket(now, 1)];
        return true, evicted;
      }
      var bucket := buckets[key];
      if bucket.count >= limit {
        return false, None;
      }
      buckets := buckets[key := bucket.(count := bucket.count + 1)];
      return true, None;
    }
  }

  // ---------- the bound ----------

  ghost predicate Bounded(limit: int, s: State) {
    && |s.buckets| <= MAX_BUCKETS
    && forall k :: k in s.buckets ==> 1 <= s.buckets[k].count <= limit
  }

  lemma StepKeepsBounded(limit: int, window: int, s: State, e: Event, s': State)
    requires Bounded(limit, s) && Step(limit, window, s, e, s')
    ensures Bounded(limit, s')
  {
    if limit > 0 && window > 0 && !Live(window, s.buckets, e.key, e.at) {
      var room :| MakesRoom(window, s, e, room, s'.lastCleanup) && s'.buckets == room[e.key := Bucket(e.at, 1)];
      RoomIsBounded(window, s, e, room, s'.lastCleanup);
      KeysAfterPut(room, e.key, Bucket(e.at, 1));
    } else if s' != s && limit > 0 && window > 0 {
      KeysAfterPut(s.buckets, e.key, s'.buckets[e.key]);
    }
  }

  lemma KeysAfterPut(m: map<string, Bucket>, key: string, b: Bucket)
    ensures |m[key := b]| == if key in m then |m| else |m| + 1
  {
    assert m[key := b].Keys == m.Keys + {key};
  }

  lemma RoomIsBounded(window: int, s: State, e: Event, room: map<string, Bucket>, cleanup: Option<int>)
    requires |s.buckets| <= MAX_BUCKETS && MakesRoom(window, s, e, room, cleanup)
    ensures room.Keys <= s.buckets.Keys && forall k :: k in room ==> room[k] == s.buckets[k]
    ensures e.key in room || |room| < MAX_BUCKETS
    ensures |room| <= MAX_BUCKETS
    ensures forall k :: k in s.buckets && k !in room ==> e.evicted == Some(k) || !Live(window, s.buckets, k, e.at)
  {
    var cleaned := Unexpired(window, s.buckets, e.at);
    SubsetIsSmaller(cleaned.Keys, s.buckets.Keys);
    if e.evicted.Some? {
      if room == cleaned - {e.evicted.value} {
        assert room.Keys == cleaned.Keys - {e.evicted.value};
      } else {
        assert room.Keys == s.buckets.Keys - {e.evicted.value};
      }
    }
  }

  lemma {:induction false} FullSubsetIsAll(a: set<string>, b: set<string>)
    requires a <= b && |a| >= |b|
    ensures a == b
  {
    if x :| x in b && x !in a {
      SubsetIsSmaller(a, b - {x});
    }
  }

  /** A live bucket is evicted only when all ten thousand are live, whether or not a cleanup was due. */
  lemma LiveEvictionMeansAllLive(limit: int, window: int, s: State, e: Event, s': State)
    requires Bounded(limit, s) && Step(limit, window, s, e, s')
    requires e.evicted.Some? && Live(window, s.buckets, e.evicted.value, e.at)
    ensures |s.buckets| == MAX_BUCKETS && forall k :: k in s.buckets ==> Live(window, s.buckets, k, e.at)
  {
    var room :| MakesRoom(window, s, e, room, s'.lastCleanup) && s'.buckets == room[e.key := Bucket(e.at, 1)];
    var cleaned := Unexpired(window, s.buckets, e.at);
    if s.lastCleanup.None? || e.at - s.lastCleanup.value >= CleanupInterval(window) {
      FullSubsetIsAll(cleaned.Keys, s.buckets.Keys);
    }
  }

  // ---------- the throttle ----------

  lemma {:induction false} LastCleanupGrows(limit: int, window: int, states: seq<State>, events: seq<Event>, i: nat, j: nat)
    requires IsRun(limit, window, states, events) && i < j < |states|
    requires states[i].lastCleanup.Some? ==> states[i].lastCleanup.value <= events[i].at
    ensures states[i].lastCleanup.Some? ==> states[j].lastCleanup.Some? && states[i].lastCleanup.value <= states[j].lastCleanup.value
    ensures states[j].lastCleanup.Some? ==> states[j].lastCleanup.value <= events[j - 1].at
  {
    if i < j - 1 { LastCleanupGrows(limit, window, states, events, i, j - 1); }
    assert Step(limit, window, states[j - 1], events[j - 1], states[j]);
  }

  /** Cleanups are at least a second apart, or a window if that is shorter. */
  lemma CleanupsAreThrottled(limit: int, window: int, states: seq<State>, events: seq<Event>, i: nat, j: nat)
    requires IsRun(limit, window, states, events) && i < j < |events|
    requires states[i + 1].lastCleanup != states[i].lastCleanup && states[j + 1].lastCleanup != states[j].lastCleanup
    ensures events[j].at - events[i].at >= CleanupInterval(window)
  {
    assert Step(limit, window, states[i], events[i], states[i + 1]);
    assert Step(limit, window, states[j], events[j], states[j + 1]);
    assert states[i + 1].lastCleanup == Some(events[i].at);
    if i + 1 < j { LastCleanupGrows(limit, window, states, events, i + 1, j); }
  }

  // ---------- the limiter it stands in for ----------

  /** The request that opened the key's current window: the first after the last one ran out. */
  function Opening(window: int, events: seq<Event>, key: string, n: nat): (r: Option<nat>)
    requires n <= |events|
    ensures r.Some? ==> r.value < n && events[r.value].key == key
  {
    if n == 0 then None
    else
      var before := Opening(window, events, key, n - 1);
      if events[n - 1].key == key && (before.None? || events[n - 1].at - events[before.value].at >= window) then Some(n - 1)
      else before
  }

  function Requests(events: seq<Event>, key: string, start: nat, n: nat): nat
    requires start <= n <= |events|
  {
    if n == start then 0 else Requests(events, key, start, n - 1) + (if events[n - 1].key == key then 1 else 0)
  }

  /** The unbounded limiter's answer: fewer than `limit` requests of the key came before in its window. */
  predicate Granted(limit: int, window: int, events: seq<Event>, i: nat)
    requires i < |events|
  {
    var key := events[i].key;
    var start := Opening(window, events, key, i + 1);
    start.Some? && Requests(events, key, start.value, i) < limit
  }

  function Grants(limit: int, window: int, events: seq<Event>, key: string, start: nat, n: nat): nat
    requires start <= n <= |events|
  {
    if n == start then 0
    else Grants(limit, window, events, key, start, n - 1)
         + (if events[n - 1].key == key && Granted(limit, window, events, n - 1) then 1 else 0)
  }

  /** A window grants its first `limit` requests and no more. */
  lemma {:induction false} WindowGrants(limit: int, window: int, events: seq<Event>, key: string, start: nat, n: nat)
    requires limit > 0 && n <= |events| && Opening(window, events, key, n) == Some(start)
    ensures Grants(limit, window, events, key, start, n) == Min(limit, Requests(events, key, start, n))
  {
    if n - 1 > start {
      WindowGrants(limit, window, events, key, start, n - 1);
    }
  }

  function Min(a: int, b: int): int {
    if a < b then a else b
  }

  /** After n requests the key's bucket is what the unbounded limiter would hold, as far as that still matters at `now`. */
  predicate Agrees(limit: int, window: int, buckets: map<string, Bucket>, events: seq<Event>, n: nat, key: string, now: int)
    requires n <= |events|
  {
    var start := Opening(window, events, key, n);
    if start.Some? && now - events[start.value].at < window then
      key in buckets && buckets[key] == Bucket(events[start.value].at, Min(limit, Requests(events, key, start.value, n)))
    else
      !Live(window, buckets, key, now)
  }

  predicate LiveEviction(window: int, s: State, e: Event, key: string) {
    e.evicted == Some(key) && Live(window, s.buckets, key, e.at)
  }

  ghost predicate IsRun(limit: int, window: int, states: seq<State>, events: seq<Event>) {
    && |states| == |events| + 1 && states[0] == State(map[], None)
    && (forall i :: 0 <= i < |events| ==> Step(limit, window, states[i], events[i], states[i + 1]))
    && (forall i, j :: 0 <= i <= j < |events| ==> events[i].at <= events[j].at)
  }

  lemma AgreesLater(limit: int, window: int, buckets: map<string, Bucket>, events: seq<Event>, n: nat, key: string, now: int, later: int)
    requires n <= |events| && now <= later && Agrees(limit, window, buckets, events, n, key, now)
    ensures Agrees(limit, window, buckets, events, n, key, later)
  {
  }

  /** One call keeps the agreement for every key it does not evict live, and answers as the unbounded limiter. */
  lemma StepAgrees(limit: int, window: int, s: State, s': State, events: seq<Event>, n: nat, key: string)
    requires limit > 0 && window > 0 && n < |events| && Bounded(limit, s) && Step(limit, window, s, events[n], s')
    requires Agrees(limit, window, s.buckets, events, n, key, events[n].at)
    requires !LiveEviction(window, s, events[n], key)
    ensures Agrees(limit, window, s'.buckets, events, n + 1, key, events[n].at)
    ensures events[n].key == key ==> events[n].allowed == Granted(limit, window, events, n)
  {
    var e := events[n];
    if !Live(window, s.buckets, e.key, e.at) {
      var room :| MakesRoom(window, s, e, room, s'.lastCleanup) && s'.buckets == room[e.key := Bucket(e.at, 1)];
      RoomIsBounded(window, s, e, room, s'.lastCleanup);
    }
    var before := Opening(window, events, key, n);
    if before.Some? {
      assert Requests(events, key, before.value, n + 1) == Requests(events, key, before.value, n) + (if e.key == key then 1 else 0);
    }
  }

  lemma {:induction false} AgreesAlways(limit: int, window: int, states: seq<State>, events: seq<Event>, n: nat, key: string)
    requires limit > 0 && window > 0 && IsRun(limit, window, states, events) && n < |events|
    requires forall j :: 0 <= j < n ==> !LiveEviction(window, states[j], events[j], key)
    ensures Agrees(limit, window, states[n].buckets, events, n, key, events[n].at)
  {
    if n > 0 {
      AgreesAlways(limit, window, states, events, n - 1, key);
      StaysBounded(limit, window, states, events, n - 1);
      StepAgrees(limit, window, states[n - 1], states[n], events, n - 1, key);
      AgreesLater(limit, window, states[n].buckets, events, n, key, events[n - 1].at, events[n].at);
    }
  }

  /** On every run there are at most 10000 buckets, each with a count in 1..limit. */
  lemma {:induction false} StaysBounded(limit: int, window: int, states: seq<State>, events: seq<Event>, n: nat)
    requires IsRun(limit, window, states, events) && n < |states|
    ensures Bounded(limit, states[n])
  {
    if n > 0 {
      StaysBounded(limit, window, states, events, n - 1);
      StepKeepsBounded(limit, window, states[n - 1], events[n - 1], states[n]);
    }
  }

  /** For every key that is never evicted while live, the answers are those of the unbounded limiter. */
  lemma DecidesAsUnbounded(limit: int, window: int, states: seq<State>, events: seq<Event>, i: nat)
    requires limit > 0 && window > 0 && IsRun(limit, window, states, events) && i < |events|
    requires forall j :: 0 <= j < i ==> !LiveEviction(window, states[j], events[j], events[i].key)
    ensures events[i].allowed == Granted(limit, window, events, i)
  {
    AgreesAlways(limit, window, states, events, i, events[i].key);
    StaysBounded(limit, window, states, events, i);
    OwnKeyIsNotEvicted(limit, window, states[i], events[i], states[i + 1]);
    StepAgrees(limit, window, states[i], states[i + 1], events, i, events[i].key);
  }

  lemma OwnKeyIsNotEvicted(limit: int, window: int, s: State, e: Event, s': State)
    requires Step(limit, window, s, e, s')
    ensures !LiveEviction(window, s, e, e.key)
  {
  }
}
