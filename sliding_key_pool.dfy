/** The sliding-window key pool of ai_server/util/v1/key_manager.py.
    Keys are handed out in strict round-robin order; the key under the cursor
    is handed out only while it has fewer than `maxRequestsPerMin` recorded
    uses younger than 60 seconds, and only that key's record is cleaned.
    The clock is the parameter `now` (whole seconds); one call is one atomic
    step, as the pool's lock makes it. */
module SlidingKeyPool {
  import opened Common

  const WindowSeconds: int := 60
  const DefaultMaxRequestsPerMin: int := 15
  const EmptyKeysMessage: string := "Error: GOOGLE_API_KEYS가 비어있습니다."

  /** The uses still inside the window at `now`: those less than 60 seconds old. */
  function Recent(uses: seq<int>, now: int): (r: seq<int>)
    ensures |r| <= |uses|
    ensures forall t :: t in r <==> t in uses && now - t < WindowSeconds
  {
    if uses == [] then []
    else if now - uses[0] < WindowSeconds then [uses[0]] + Recent(uses[1..], now)
    else Recent(uses[1..], now)
  }

  /** The usage state of the pool: the round-robin cursor and, per key, its
      recorded use times. Keys that occur twice share one record. */
  datatype PoolState = PoolState(currentIndex: nat, keyUsage: map<string, seq<int>>)

  function KeySet(apiKeys: seq<string>): set<string>
  {
    set k | k in apiKeys
  }

  ghost predicate Wf(apiKeys: seq<string>, s: PoolState)
  {
    (if |apiKeys| == 0 then s.currentIndex == 0 else s.currentIndex < |apiKeys|) &&
    s.keyUsage.Keys == KeySet(apiKeys)
  }

  function Cap(maxPerMin: int): nat
  {
    if maxPerMin < 0 then 0 else maxPerMin
  }

  /** No record holds more uses than the cap allows. */
  ghost predicate Bounded(keyUsage: map<string, seq<int>>, maxPerMin: int)
  {
    forall k | k in keyUsage :: |keyUsage[k]| <= Cap(maxPerMin)
  }

  /** A freshly constructed pool: cursor at 0, every record empty. */
  function Initial(apiKeys: seq<string>): (s: PoolState)
    ensures Wf(apiKeys, s)
    ensures forall k | k in s.keyUsage :: s.keyUsage[k] == []
  {
    PoolState(0, map k | k in apiKeys :: [])
  }

  /** One `get_available_key` call at time `now`. */
  function Acquire(apiKeys: seq<string>, maxPerMin: int, s: PoolState, now: int): (r: (Option<string>, PoolState))
    requires Wf(apiKeys, s)
    ensures Wf(apiKeys, r.1)
    // an empty pool refuses; otherwise only the key under the cursor is considered
    ensures r.0.Some? <==>
              |apiKeys| > 0 && |Recent(s.keyUsage[apiKeys[s.currentIndex]], now)| < maxPerMin
    ensures r.0.Some? ==> r.0.value == apiKeys[s.currentIndex]
    // success appends exactly `now` to the cleaned record and advances the cursor
    ensures r.0.Some? ==>
              r.1.currentIndex == (s.currentIndex + 1) % |apiKeys| &&
              r.1.keyUsage[r.0.value] == Recent(s.keyUsage[r.0.value], now) + [now]
    // refusal records nothing and leaves the cursor where it was; the refused
    // key's record is still cleaned
    ensures r.0.None? ==>
              r.1.currentIndex == s.currentIndex &&
              forall k | k in r.1.keyUsage :: |r.1.keyUsage[k]| <= |s.keyUsage[k]|
    ensures |apiKeys| > 0 && r.0.None? ==>
              r.1.keyUsage[apiKeys[s.currentIndex]] == Recent(s.keyUsage[apiKeys[s.currentIndex]], now)
    // cleaning is lazy: every other key's record is left as it was
    ensures forall k | k in s.keyUsage && k != apiKeys[s.currentIndex] :: r.1.keyUsage[k] == s.keyUsage[k]
    ensures Bounded(s.keyUsage, maxPerMin) ==> Bounded(r.1.keyUsage, maxPerMin)
  {
    if |apiKeys| == 0 then (None, s)
    else
      var key := apiKeys[s.currentIndex];
      var cleaned := Recent(s.keyUsage[key], now);
      if |cleaned| < maxPerMin then
        (Some(key), PoolState((s.currentIndex + 1) % |apiKeys|, s.keyUsage[key := cleaned + [now]]))
      else
        (None, PoolState(s.currentIndex, s.keyUsage[key := cleaned]))
  }

  /** A use exactly 60 seconds old no longer counts; one 59 seconds old still does. */
  lemma ExpiryBoundary(t: int)
    ensures Recent([t], t + 60) == []
    ensures Recent([t], t + 59) == [t]
  {
  }

  /** Strict round-robin: a key at its cap blocks the pool even when the next key
      has budget left. */
  lemma ExhaustedCursorKeyBlocks()
    ensures Acquire(["a", "b"], 1, PoolState(0, map["a" := [0], "b" := []]), 1).0 == None
  {
    var s := PoolState(0, map["a" := [0], "b" := []]);
    assert KeySet(["a", "b"]) == {"a", "b"};
    assert Wf(["a", "b"], s);
    assert Recent([0], 1) == [0];
  }

  /** An exhausted key becomes available again once all its uses are 60 seconds old. */
  lemma {:induction false} ExpiredUsesFreeTheKey(apiKeys: seq<string>, maxPerMin: int, s: PoolState, now: int)
    requires Wf(apiKeys, s) && |apiKeys| > 0 && maxPerMin >= 1
    requires forall t | t in s.keyUsage[apiKeys[s.currentIndex]] :: now - t >= WindowSeconds
    ensures Acquire(apiKeys, maxPerMin, s, now).0 == Some(apiKeys[s.currentIndex])
  {
    RecentOfStale(s.keyUsage[apiKeys[s.currentIndex]], now);
  }

  lemma {:induction false} RecentOfStale(uses: seq<int>, now: int)
    requires forall t | t in uses :: now - t >= WindowSeconds
    ensures Recent(uses, now) == []
  {
    if uses != [] {
      assert uses[0] in uses;
      assert forall t | t in uses[1..] :: t in uses;
      RecentOfStale(uses[1..], now);
    }
  }

  /** Cleaning twice, the second time no earlier than the first, is cleaning once. */
  lemma {:induction false} RecentOfRecent(uses: seq<int>, c: int, now: int)
    requires c <= now
    ensures Recent(Recent(uses, c), now) == Recent(uses, now)
  {
    if uses != [] {
      RecentOfRecent(uses[1..], c, now);
      var x := uses[0];
      if c - x < WindowSeconds {
        var rest := Recent(uses[1..], c);
        assert ([x] + rest)[1..] == rest;
      }
    }
  }

  lemma {:induction false} RecentAppend(uses: seq<int>, x: int, now: int)
    ensures Recent(uses + [x], now) == Recent(uses, now) + (if now - x < WindowSeconds then [x] else [])
  {
    if uses == [] {
      assert ([x] + [])[1..] == [];
      assert [] + [x] == [x];
    } else {
      assert (uses + [x])[1..] == uses[1..] + [x];
      RecentAppend(uses[1..], x, now);
    }
  }

  /** `granted` holds every time each key was handed out. The pool tracks it when,
      at every time from `clock` on, each record counts the same recent uses as
      the full history does. */
  ghost predicate Tracks(s: PoolState, granted: map<string, seq<int>>, clock: int)
  {
    granted.Keys == s.keyUsage.Keys &&
    forall k, t | k in s.keyUsage && t >= clock :: Recent(s.keyUsage[k], t) == Recent(granted[k], t)
  }

  function Grant(granted: map<string, seq<int>>, r: Option<string>, now: int): map<string, seq<int>>
  {
    if r.Some? && r.value in granted then granted[r.value := granted[r.value] + [now]] else granted
  }

  /** One acquisition at a time no earlier than the last keeps the records in step
      with the full history, and a key is handed out only when fewer than
      `maxPerMin` of its uses in the whole history are younger than 60 seconds. */
  lemma {:induction false} AcquireTracks(apiKeys: seq<string>, maxPerMin: int, s: PoolState,
                                         granted: map<string, seq<int>>, clock: int, now: int)
    requires Wf(apiKeys, s) && Tracks(s, granted, clock) && clock <= now
    ensures var (r, s') := Acquire(apiKeys, maxPerMin, s, now);
            Tracks(s', Grant(granted, r, now), now) &&
            (r.Some? ==> |Recent(granted[r.value], now)| < maxPerMin)
  {
    var (r, s') := Acquire(apiKeys, maxPerMin, s, now);
    var g' := Grant(granted, r, now);
    if |apiKeys| > 0 {
      var key := apiKeys[s.currentIndex];
      assert Recent(s.keyUsage[key], now) == Recent(granted[key], now);
      forall k, t | k in s'.keyUsage && t >= now
        ensures Recent(s'.keyUsage[k], t) == Recent(g'[k], t)
      {
        if k == key {
          RecentOfRecent(s.keyUsage[key], now, t);
          assert Recent(s.keyUsage[key], t) == Recent(granted[key], t);
          if r.Some? {
            RecentAppend(Recent(s.keyUsage[key], now), now, t);
            RecentAppend(granted[key], now, t);
          }
        } else {
          assert Recent(s.keyUsage[k], t) == Recent(granted[k], t);
        }
      }
    }
  }

  /** A sequence of `get_available_key` calls at the given times. */
  function Run(apiKeys: seq<string>, maxPerMin: int, s: PoolState, times: seq<int>): (r: (seq<Option<string>>, PoolState))
    requires Wf(apiKeys, s)
    ensures |r.0| == |times| && Wf(apiKeys, r.1)
    decreases |times|
  {
    if times == [] then ([], s)
    else
      var (key, s1) := Acquire(apiKeys, maxPerMin, s, times[0]);
      var (rest, s2) := Run(apiKeys, maxPerMin, s1, times[1..]);
      ([key] + rest, s2)
  }

  /** The times at which `k` was handed out during a run. */
  function Granted(results: seq<Option<string>>, times: seq<int>, k: string): seq<int>
    requires |results| == |times|
  {
    if results == [] then []
    else (if results[0] == Some(k) then [times[0]] else []) + Granted(results[1..], times[1..], k)
  }

  function Extend(granted: map<string, seq<int>>, results: seq<Option<string>>, times: seq<int>): map<string, seq<int>>
    requires |results| == |times|
  {
    map k | k in granted :: granted[k] + Granted(results, times, k)
  }

  predicate NonDecreasing(times: seq<int>)
  {
    forall i, j | 0 <= i < j < |times| :: times[i] <= times[j]
  }

  function LastTime(clock: int, times: seq<int>): int
  {
    if times == [] then clock else times[|times| - 1]
  }

  lemma {:induction false} ExtendEmpty(granted: map<string, seq<int>>)
    ensures Extend(granted, [], []) == granted
  {
    forall k | k in granted ensures Extend(granted, [], [])[k] == granted[k] {
      assert granted[k] + [] == granted[k];
    }
  }

  /** Recording the first grant, then the rest, is recording the whole run. */
  lemma {:induction false} ExtendCons(granted: map<string, seq<int>>, r0: Option<string>, t0: int,
                                      rest: seq<Option<string>>, times: seq<int>)
    requires |rest| == |times|
    ensures Extend(Grant(granted, r0, t0), rest, times) == Extend(granted, [r0] + rest, [t0] + times)
  {
    var g1 := Grant(granted, r0, t0);
    assert ([r0] + rest)[1..] == rest && ([t0] + times)[1..] == times;
    assert g1.Keys == granted.Keys;
    forall k | k in granted
      ensures Extend(g1, rest, times)[k] == Extend(granted, [r0] + rest, [t0] + times)[k]
    {
      var first: seq<int> := if r0 == Some(k) then [t0] else [];
      var later := Granted(rest, times, k);
      assert g1[k] == granted[k] + first;
      assert Granted([r0] + rest, [t0] + times, k) == first + later;
      assert (granted[k] + first) + later == granted[k] + (first + later);
    }
  }

  lemma {:induction false} RunTracks(apiKeys: seq<string>, maxPerMin: int, s: PoolState,
                                     granted: map<string, seq<int>>, clock: int, times: seq<int>)
    requires Wf(apiKeys, s) && Tracks(s, granted, clock) && Bounded(s.keyUsage, maxPerMin)
    requires NonDecreasing(times) && forall i | 0 <= i < |times| :: clock <= times[i]
    ensures Tracks(Run(apiKeys, maxPerMin, s, times).1,
                   Extend(granted, Run(apiKeys, maxPerMin, s, times).0, times),
                   LastTime(clock, times))
    ensures Bounded(Run(apiKeys, maxPerMin, s, times).1.keyUsage, maxPerMin)
    decreases |times|
  {
    if times == [] {
      ExtendEmpty(granted);
    } else {
      var t0 := times[0];
      var (r0, s1) := Acquire(apiKeys, maxPerMin, s, t0);
      AcquireTracks(apiKeys, maxPerMin, s, granted, clock, t0);
      var g1 := Grant(granted, r0, t0);
      var later := times[1..];
      RunTracks(apiKeys, maxPerMin, s1, g1, t0, later);
      var rest := Run(apiKeys, maxPerMin, s1, later).0;
      ExtendCons(granted, r0, t0, rest, later);
      assert [t0] + later == times;
      assert LastTime(t0, later) == LastTime(clock, times);
    }
  }

  /** The rate limit in its sliding-window form: from a fresh pool, however the
      calls fall in time (the clock never runs backwards), at any moment from the
      last call on no key has been handed out `maxPerMin + 1` times within the
      trailing 60 seconds. */
  lemma {:induction false} SlidingWindowCap(apiKeys: seq<string>, maxPerMin: int, times: seq<int>, k: string, t: int)
    requires NonDecreasing(times) && k in apiKeys
    requires forall i | 0 <= i < |times| :: times[i] <= t
    ensures var (results, _) := Run(apiKeys, maxPerMin, Initial(apiKeys), times);
            |Recent(Granted(results, times, k), t)| <= Cap(maxPerMin)
  {
    var s0 := Initial(apiKeys);
    var g0: map<string, seq<int>> := map k | k in apiKeys :: [];
    var clock := if times == [] then t else times[0];
    RunTracks(apiKeys, maxPerMin, s0, g0, clock, times);
    var (results, s') := Run(apiKeys, maxPerMin, s0, times);
    assert Extend(g0, results, times)[k] == Granted(results, times, k);
    assert LastTime(clock, times) <= t;
    assert Recent(s'.keyUsage[k], t) == Recent(Granted(results, times, k), t);
  }

  class APIKeyPool {
    const apiKeys: seq<string>
    const maxRequestsPerMin: int
    var currentIndex: nat
    var keyUsage: map<string, seq<int>>

    function State(): PoolState
      reads this
    {
      PoolState(currentIndex, keyUsage)
    }

    ghost predicate Valid()
      reads this
    {
      Wf(apiKeys, State())
    }

    constructor (apiKeys: seq<string>, maxRequestsPerMin: int := DefaultMaxRequestsPerMin)
      ensures Valid()
      ensures this.apiKeys == apiKeys && this.maxRequestsPerMin == maxRequestsPerMin
      ensures State() == Initial(apiKeys)
    {
      this.apiKeys := apiKeys;
      this.maxRequestsPerMin := maxRequestsPerMin;
      currentIndex := 0;
      keyUsage := map k | k in apiKeys :: [];
    }

    /** Drops the uses of `key` that are 60 seconds old or older. */
    method CleanupOldUsage(key: string, now: int)
      requires Valid() && key in keyUsage
      modifies this`keyUsage
      ensures Valid()
      ensures keyUsage == old(keyUsage)[key := Recent(old(keyUsage)[key], now)]
    {
      keyUsage := keyUsage[key := Recent(keyUsage[key], now)];
    }

    method IsKeyAvailable(key: string, now: int) returns (available: bool)
      requires Valid() && key in keyUsage
      modifies this`keyUsage
      ensures Valid()
      ensures keyUsage == old(keyUsage)[key := Recent(old(keyUsage)[key], now)]
      ensures available <==> |Recent(old(keyUsage)[key], now)| < maxRequestsPerMin
    {
      CleanupOldUsage(key, now);
      available := |keyUsage[key]| < maxRequestsPerMin;
    }

    method GetAvailableKey(now: int) returns (key: Option<string>)
      requires Valid()
      modifies this`currentIndex, this`keyUsage
      ensures Valid()
      ensures (key, State()) == Acquire(apiKeys, maxRequestsPerMin, old(State()), now)
    {
      if |apiKeys| == 0 {
        return None;
      }
      var k := apiKeys[currentIndex];
      ghost var before := keyUsage;
      var available := IsKeyAvailable(k, now);
      if available {
        assert keyUsage[k := keyUsage[k] + [now]] == before[k := Recent(before[k], now) + [now]];
        keyUsage := keyUsage[k := keyUsage[k] + [now]];
        currentIndex := (currentIndex + 1) % |apiKeys|;
        return Some(k);
      }
      return None;
    }

    /** The number of configured keys, whatever their usage. */
    method GetAvailableKeyCount() returns (count: nat)
      ensures count == |apiKeys|
    {
      count := |apiKeys|;
    }
  }

  /** Builds the pool from the configured key list, refusing an empty list. */
  method InitializeKeyPool(configuredKeys: seq<string>) returns (r: Result<APIKeyPool>)
    ensures r.Err? <==> configuredKeys == []
    ensures r.Err? ==> r.message == EmptyKeysMessage
    ensures r.Ok? ==> fresh(r.value) && r.value.Valid() && r.value.apiKeys == configuredKeys &&
                      r.value.maxRequestsPerMin == DefaultMaxRequestsPerMin &&
                      r.value.State() == Initial(configuredKeys)
  {
    if configuredKeys == [] {
      return Err(EmptyKeysMessage);
    }
    var pool := new APIKeyPool(configuredKeys);
    return Ok(pool);
  }
}
