/** The fixed-window key pool of ai_server/key_pool.py. Every key carries a
    request counter; a call hands out the least-used key whose counter is below
    `maxRequestsPerMin` (the earliest such key on ties) and bumps its counter.
    Only `reset_counters` gives capacity back; `release_key` changes nothing. */
module LeastUsedKeyPool {
  import opened Common

  const DefaultMaxRequestsPerMin: int := 60

  /** `APIKeyStatus`: the key, its display label, its request counter and the
      time of its last use (a tick standing for `time.time()`). */
  datatype KeyStatus = KeyStatus(key: string, keyLabel: string, requestCount: int, lastUsed: int)

  /** The label of the key at position `i`: `key_{i+1}`. */
  function Label(i: nat): string
  {
    "key_" + NatToString(i + 1)
  }

  predicate IsLastOccurrence(apiKeys: seq<string>, i: nat)
    requires i < |apiKeys|
  {
    forall j | i < j < |apiKeys| :: apiKeys[j] != apiKeys[i]
  }

  /** `key_to_label`: one entry per listed key, built in list order. */
  function KeyToLabel(apiKeys: seq<string>): (m: map<string, string>)
    ensures forall k :: k in m <==> k in apiKeys
  {
    if apiKeys == [] then map[]
    else
      var n := |apiKeys| - 1;
      assert forall k :: k in apiKeys <==> k in apiKeys[..n] || k == apiKeys[n] by {
        assert apiKeys == apiKeys[..n] + [apiKeys[n]];
      }
      KeyToLabel(apiKeys[..n])[apiKeys[n] := Label(n)]
  }

  /** The label of a key is that of its last position in the list. */
  lemma {:induction false} KeyToLabelLastWins(apiKeys: seq<string>, i: nat)
    requires i < |apiKeys| && IsLastOccurrence(apiKeys, i)
    ensures KeyToLabel(apiKeys)[apiKeys[i]] == Label(i)
  {
    var n := |apiKeys| - 1;
    var init := apiKeys[..n];
    assert KeyToLabel(apiKeys) == KeyToLabel(init)[apiKeys[n] := Label(n)];
    if i < n {
      assert init[i] == apiKeys[i] && apiKeys[i] != apiKeys[n];
      forall j | i < j < |init|
        ensures init[j] != init[i]
      {
        assert init[j] == apiKeys[j];
      }
      KeyToLabelLastWins(init, i);
    }
  }

  /** The statuses built by the constructor, one per listed key, in list order. */
  function InitialStatuses(apiKeys: seq<string>): (keys: seq<KeyStatus>)
    ensures |keys| == |apiKeys|
    ensures forall i | 0 <= i < |keys| ::
              keys[i].key == apiKeys[i] && keys[i].requestCount == 0 && keys[i].lastUsed == 0
  {
    var labels := KeyToLabel(apiKeys);
    seq(|apiKeys|, i requires 0 <= i < |apiKeys| => KeyStatus(apiKeys[i], labels[apiKeys[i]], 0, 0))
  }

  /** With distinct keys every status is labelled by its own position; a key
      listed twice gets the later position's label at both positions. */
  lemma {:induction false} InitialLabels(apiKeys: seq<string>)
    ensures forall i | 0 <= i < |apiKeys| && IsLastOccurrence(apiKeys, i) ::
              InitialStatuses(apiKeys)[i].keyLabel == Label(i)
    ensures forall i, j | 0 <= i < j < |apiKeys| && apiKeys[i] == apiKeys[j] ::
              InitialStatuses(apiKeys)[i].keyLabel == InitialStatuses(apiKeys)[j].keyLabel
  {
    forall i | 0 <= i < |apiKeys| && IsLastOccurrence(apiKeys, i)
      ensures InitialStatuses(apiKeys)[i].keyLabel == Label(i)
    {
      KeyToLabelLastWins(apiKeys, i);
    }
  }

  predicate Eligible(status: KeyStatus, maxPerMin: int)
  {
    status.requestCount < maxPerMin
  }

  /** Python's `min(available_keys, key=request_count)`: the position of the
      eligible key with the smallest counter, the earliest one on ties. */
  function LeastUsed(keys: seq<KeyStatus>, maxPerMin: int): (r: Option<nat>)
    ensures r.None? <==> forall i | 0 <= i < |keys| :: !Eligible(keys[i], maxPerMin)
    ensures r.Some? ==>
              r.value < |keys| && Eligible(keys[r.value], maxPerMin) &&
              (forall i | 0 <= i < |keys| && Eligible(keys[i], maxPerMin) ::
                 keys[r.value].requestCount <= keys[i].requestCount) &&
              (forall i | 0 <= i < r.value && Eligible(keys[i], maxPerMin) ::
                 keys[r.value].requestCount < keys[i].requestCount)
  {
    if keys == [] then None
    else
      var rest := LeastUsed(keys[1..], maxPerMin);
      if Eligible(keys[0], maxPerMin) &&
         (rest.None? || keys[0].requestCount <= keys[1..][rest.value].requestCount)
      then Some(0)
      else if rest.None? then None
      else Some(rest.value + 1)
  }

  /** Keys and labels are never changed after construction. */
  predicate SameKeys(a: seq<KeyStatus>, b: seq<KeyStatus>)
  {
    |a| == |b| && forall i | 0 <= i < |a| :: a[i].key == b[i].key && a[i].keyLabel == b[i].keyLabel
  }

  lemma SameKeysTrans(a: seq<KeyStatus>, b: seq<KeyStatus>, c: seq<KeyStatus>)
    requires SameKeys(a, b) && SameKeys(b, c)
    ensures SameKeys(a, c)
  {
  }

  /** Every counter is non-negative and none exceeds the cap (a negative cap
      admits nothing, so counters stay at 0). */
  ghost predicate CountsWithinCap(keys: seq<KeyStatus>, maxPerMin: int)
  {
    forall i | 0 <= i < |keys| :: 0 <= keys[i].requestCount && (keys[i].requestCount <= maxPerMin || keys[i].requestCount == 0)
  }

  /** A status after one more use at time `now`. */
  function Used(status: KeyStatus, now: int): KeyStatus
  {
    status.(requestCount := status.requestCount + 1, lastUsed := now)
  }

  /** One `get_available_key` call at time `now`. */
  function Acquire(keys: seq<KeyStatus>, maxPerMin: int, now: int): (r: (Option<string>, seq<KeyStatus>))
    ensures SameKeys(keys, r.1)
    ensures r.0.None? <==> forall i | 0 <= i < |keys| :: keys[i].requestCount >= maxPerMin
    ensures r.0.None? ==> r.1 == keys
    ensures r.0.Some? ==>
              var i := LeastUsed(keys, maxPerMin).value;
              r.0.value == keys[i].key &&
              r.1[i].requestCount == keys[i].requestCount + 1 && r.1[i].lastUsed == now &&
              forall j | 0 <= j < |keys| && j != i :: r.1[j] == keys[j]
    ensures CountsWithinCap(keys, maxPerMin) ==> CountsWithinCap(r.1, maxPerMin)
  {
    match LeastUsed(keys, maxPerMin)
    case None => (None, keys)
    case Some(i) =>
      (Some(keys[i].key), keys[i := Used(keys[i], now)])
  }

  lemma AcquireKeepsInvariant(init: seq<KeyStatus>, keys: seq<KeyStatus>, maxPerMin: int, now: int)
    requires SameKeys(init, keys) && CountsWithinCap(keys, maxPerMin)
    ensures SameKeys(init, Acquire(keys, maxPerMin, now).1)
    ensures CountsWithinCap(Acquire(keys, maxPerMin, now).1, maxPerMin)
  {
    SameKeysTrans(init, keys, Acquire(keys, maxPerMin, now).1);
  }

  lemma AcquireNone(keys: seq<KeyStatus>, maxPerMin: int, now: int)
    requires LeastUsed(keys, maxPerMin) == None
    ensures Acquire(keys, maxPerMin, now) == (None, keys)
  {
  }

  lemma AcquirePicks(keys: seq<KeyStatus>, maxPerMin: int, now: int, i: nat)
    requires LeastUsed(keys, maxPerMin) == Some(i)
    ensures i < |keys|
    ensures Acquire(keys, maxPerMin, now) == (Some(keys[i].key), keys[i := Used(keys[i], now)])
  {
  }

  /** `reset_counters`: every counter back to 0, nothing else touched. */
  function ResetAll(keys: seq<KeyStatus>): (r: seq<KeyStatus>)
    ensures SameKeys(keys, r)
    ensures forall i | 0 <= i < |r| :: r[i].requestCount == 0 && r[i].lastUsed == keys[i].lastUsed
  {
    seq(|keys|, i requires 0 <= i < |keys| => keys[i].(requestCount := 0))
  }

  /** After a reset a non-empty pool with a positive cap hands out its first key. */
  lemma {:induction false} ResetRestoresCapacity(keys: seq<KeyStatus>, maxPerMin: int, now: int)
    requires keys != [] && maxPerMin >= 1
    ensures Acquire(ResetAll(keys), maxPerMin, now).0 == Some(keys[0].key)
  {
    var reset := ResetAll(keys);
    var i := LeastUsed(reset, maxPerMin).value;
    assert Eligible(reset[0], maxPerMin);
  }

  /** A sequence of `get_available_key` calls at the given times, without reset. */
  function Run(keys: seq<KeyStatus>, maxPerMin: int, times: seq<int>): (r: seq<KeyStatus>)
    ensures SameKeys(keys, r)
  {
    if times == [] then keys
    else Acquire(Run(keys, maxPerMin, times[..|times| - 1]), maxPerMin, times[|times| - 1]).1
  }

  /** After `m` calls, least-used selection has spread them as evenly as possible,
      the earlier keys taking the remainder. */
  ghost predicate BalancedAfter(keys: seq<KeyStatus>, m: nat)
    requires keys != []
  {
    forall i | 0 <= i < |keys| :: keys[i].requestCount == m / |keys| + (if i < m % |keys| then 1 else 0)
  }

  lemma MulMonotone(a: int, b: int, n: int)
    requires a >= b && n > 0
    ensures a * n >= b * n
  {
  }

  /** The counters after `q` full rounds and `r` further calls. */
  ghost predicate Staircase(keys: seq<KeyStatus>, q: int, r: nat)
  {
    forall i | 0 <= i < |keys| :: keys[i].requestCount == q + (if i < r then 1 else 0)
  }

  lemma {:induction false} StaircasePick(keys: seq<KeyStatus>, maxPerMin: int, q: int, r: nat)
    requires r < |keys| && q < maxPerMin && Staircase(keys, q, r)
    ensures LeastUsed(keys, maxPerMin) == Some(r)
  {
    assert Eligible(keys[r], maxPerMin);
    var j := LeastUsed(keys, maxPerMin).value;
    assert keys[j].requestCount <= keys[r].requestCount;
  }

  lemma {:induction false} StaircaseStep(keys: seq<KeyStatus>, maxPerMin: int, q: int, r: nat, now: int)
    requires r < |keys| && q < maxPerMin && Staircase(keys, q, r)
    ensures Staircase(Acquire(keys, maxPerMin, now).1, q, r + 1)
  {
    StaircasePick(keys, maxPerMin, q, r);
  }

  lemma {:induction false} BalancedStep(keys: seq<KeyStatus>, maxPerMin: int, m: nat, now: int)
    requires keys != [] && BalancedAfter(keys, m) && m < maxPerMin * |keys|
    ensures BalancedAfter(Acquire(keys, maxPerMin, now).1, m + 1)
  {
    var n := |keys|;
    var q, r := m / n, m % n;
    QuotientBelowCap(m, n, maxPerMin);
    StaircaseStep(keys, maxPerMin, q, r, now);
    var after := Acquire(keys, maxPerMin, now).1;
    if r + 1 < n {
      NextInRound(m, n);
    } else {
      NextRound(m, n);
      assert Staircase(after, q + 1, 0);
    }
  }

  lemma QuotientBelowCap(m: nat, n: nat, cap: int)
    requires n > 0 && m < cap * n
    ensures m / n < cap
  {
    if m / n >= cap {
      MulMonotone(m / n, cap, n);
    }
  }

  lemma NextInRound(m: nat, n: nat)
    requires n > 0 && m % n + 1 < n
    ensures (m + 1) / n == m / n && (m + 1) % n == m % n + 1
  {
    DivModUnique(m + 1, n, m / n, m % n + 1);
  }

  lemma NextRound(m: nat, n: nat)
    requires n > 0 && m % n + 1 == n
    ensures (m + 1) / n == m / n + 1 && (m + 1) % n == 0
  {
    assert m + 1 == (m / n) * n + n == (m / n + 1) * n;
    DivModUnique(m + 1, n, m / n + 1, 0);
  }

  lemma {:induction false} RunBalanced(keys: seq<KeyStatus>, maxPerMin: int, times: seq<int>)
    requires keys != [] && forall i | 0 <= i < |keys| :: keys[i].requestCount == 0
    requires |times| <= maxPerMin * |keys|
    ensures BalancedAfter(Run(keys, maxPerMin, times), |times|)
  {
    if times == [] {
      DivModUnique(0, |keys|, 0, 0);
    } else {
      var m := |times| - 1;
      RunBalanced(keys, maxPerMin, times[..m]);
      BalancedStep(Run(keys, maxPerMin, times[..m]), maxPerMin, m, times[m]);
    }
  }

  /** Fairness: from a fresh pool, `k * n` calls with `k <= maxPerMin` and no
      reset leave every one of the `n` keys with exactly `k` uses. */
  lemma {:induction false} EvenShare(apiKeys: seq<string>, maxPerMin: int, times: seq<int>, k: nat)
    requires apiKeys != [] && k <= maxPerMin && |times| == k * |apiKeys|
    ensures forall i | 0 <= i < |apiKeys| :: Run(InitialStatuses(apiKeys), maxPerMin, times)[i].requestCount == k
  {
    var n := |apiKeys|;
    MulMonotone(maxPerMin, k, n);
    RunBalanced(InitialStatuses(apiKeys), maxPerMin, times);
    DivModUnique(k * n, n, k, 0);
  }

  class APIKeyPool {
    ghost const apiKeys: seq<string>
    const keyToLabel: map<string, string>
    const maxRequestsPerMin: int
    var keys: seq<KeyStatus>

    ghost predicate Valid()
      reads this
    {
      keyToLabel == KeyToLabel(apiKeys) &&
      SameKeys(InitialStatuses(apiKeys), keys) &&
      CountsWithinCap(keys, maxRequestsPerMin)
    }

    constructor (apiKeys: seq<string>, maxRequestsPerMin: int := DefaultMaxRequestsPerMin)
      ensures Valid()
      ensures this.apiKeys == apiKeys && this.maxRequestsPerMin == maxRequestsPerMin
      ensures keys == InitialStatuses(apiKeys)
    {
      this.apiKeys := apiKeys;
      var labels := KeyToLabel(apiKeys);
      keyToLabel := labels;
      keys := seq(|apiKeys|, i requires 0 <= i < |apiKeys| => KeyStatus(apiKeys[i], labels[apiKeys[i]], 0, 0));
      this.maxRequestsPerMin := maxRequestsPerMin;
    }

    method GetAvailableKey(now: int) returns (key: Option<string>)
      requires Valid()
      modifies this`keys
      ensures Valid()
      ensures key == Acquire(old(keys), maxRequestsPerMin, now).0
      ensures keys == Acquire(old(keys), maxRequestsPerMin, now).1
    {
      ghost var before := keys;
      AcquireKeepsInvariant(InitialStatuses(apiKeys), before, maxRequestsPerMin, now);
      var selected := LeastUsed(keys, maxRequestsPerMin);
      if selected.None? {
        AcquireNone(before, maxRequestsPerMin, now);
        key := None;
        assert (key, keys) == Acquire(before, maxRequestsPerMin, now);
        return;
      }
      var i := selected.value;
      AcquirePicks(before, maxRequestsPerMin, now, i);
      key := Some(keys[i].key);
      keys := keys[i := Used(keys[i], now)];
    }

    /** Looks the key up and keeps its counter: usage is given back only by
        `ResetCounters`. */
    method ReleaseKey(apiKey: string)
      requires Valid()
      ensures Valid() && keys == old(keys)
    {
      var i := 0;
      while i < |keys|
        invariant 0 <= i <= |keys|
      {
        if keys[i].key == apiKey {
          break;
        }
        i := i + 1;
      }
    }

    method ResetCounters()
      requires Valid()
      modifies this`keys
      ensures Valid()
      ensures keys == ResetAll(old(keys))
    {
      var i := 0;
      while i < |keys|
        invariant 0 <= i <= |keys| == |old(keys)|
        invariant forall j | 0 <= j < i :: keys[j] == old(keys)[j].(requestCount := 0)
        invariant forall j | i <= j < |keys| :: keys[j] == old(keys)[j]
      {
        keys := keys[i := keys[i].(requestCount := 0)];
        i := i + 1;
      }
    }
  }
}
