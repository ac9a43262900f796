/** The result cache of core/cache.py: an ordered map from request key to
    generated text (oldest first), a parallel map of insertion times, eviction
    of the oldest entry when a new key arrives at capacity, and expiry of
    entries older than `ttlSeconds`, lazily on `get` and in bulk on
    `clear_expired`. The clock is the parameter `now`; each call is one atomic
    step, as the cache's lock makes it. */
module LruCache {
  import opened Common

  const DefaultCapacity: int := 1000
  const DefaultTtlSeconds: int := 3600

  /** The cache key of a request. The source hashes the three fields (JSON, then
      MD5); the model keeps the fields, so distinct requests have distinct keys. */
  datatype RequestKey = RequestKey(content: string, emotion: string, postType: string)

  function GenerateKey(content: string, emotion: string, postType: string): RequestKey
  {
    RequestKey(content, emotion, postType)
  }

  /** Two requests share a key exactly when content, emotion and post type all
      agree: a repeated request finds its entry, and no other request does. */
  lemma GenerateKeyInjective(c1: string, e1: string, p1: string, c2: string, e2: string, p2: string)
    ensures GenerateKey(c1, e1, p1) == GenerateKey(c2, e2, p2) <==> c1 == c2 && e1 == e2 && p1 == p2
  {
  }

  predicate Distinct<T(==)>(s: seq<T>)
  {
    forall i, j | 0 <= i < j < |s| :: s[i] != s[j]
  }

  lemma DistinctTail<T>(s: seq<T>)
    requires s != []
    ensures Distinct(s) ==> Distinct(s[1..]) && s[0] !in s[1..]
  {
    if Distinct(s) {
      forall i, j | 0 <= i < j < |s| - 1
        ensures s[1..][i] != s[1..][j]
      {
        assert s[1..][i] == s[i + 1] && s[1..][j] == s[j + 1];
      }
    }
  }

  lemma DistinctCons<T>(x: T, t: seq<T>)
    requires Distinct(t) && x !in t
    ensures Distinct([x] + t)
  {
    var s := [x] + t;
    forall i, j | 0 <= i < j < |s|
      ensures s[i] != s[j]
    {
      assert s[j] == t[j - 1];
      if i > 0 {
        assert s[i] == t[i - 1];
      }
    }
  }

  /** The set of elements of `s`. */
  function Elements<T>(s: seq<T>): set<T>
  {
    if s == [] then {} else {s[0]} + Elements(s[1..])
  }

  lemma {:induction false} ElementsMembership<T>(s: seq<T>)
    ensures forall x :: x in Elements(s) <==> x in s
  {
    if s != [] {
      ElementsMembership(s[1..]);
      assert forall x :: x in s <==> x == s[0] || x in s[1..];
    }
  }

  lemma DistinctSnoc<T>(t: seq<T>, x: T)
    requires Distinct(t) && x !in t
    ensures Distinct(t + [x])
  {
  }

  lemma {:induction false} ElementsHas<T>(s: seq<T>, x: T)
    ensures x in Elements(s) <==> x in s
  {
    if s != [] {
      ElementsHas(s[1..], x);
      assert x in s <==> x == s[0] || x in s[1..];
    }
  }

  lemma {:induction false} ElementsSnoc<T>(s: seq<T>, x: T)
    ensures Elements(s + [x]) == Elements(s) + {x}
  {
    if s == [] {
      assert [] + [x] == [x];
    } else {
      assert (s + [x])[1..] == s[1..] + [x];
      ElementsSnoc(s[1..], x);
    }
  }

  /** `s` without `k`, the other elements in their order. */
  function Remove<T(==,!new)>(s: seq<T>, k: T): (r: seq<T>)
    ensures forall x :: x in r <==> x in s && x != k
    ensures k !in s ==> r == s
  {
    if s == [] then []
    else if s[0] == k then
      assert k !in s[1..] ==> Remove(s[1..], k) == s[1..];
      Remove(s[1..], k)
    else
      assert [s[0]] + s[1..] == s;
      [s[0]] + Remove(s[1..], k)
  }

  /** Removing a key keeps the relative order of the others and, on a list
      without duplicates, removes exactly one element. */
  lemma {:induction false} RemoveKeepsOrder<T(!new)>(s: seq<T>, k: T)
    ensures IsSubsequence(Remove(s, k), s)
    ensures Distinct(s) ==> Distinct(Remove(s, k))
    ensures Distinct(s) && k in s ==> |Remove(s, k)| == |s| - 1
  {
    if s != [] {
      RemoveKeepsOrder(s[1..], k);
      assert [s[0]] + s[1..] == s;
      DistinctTail(s);
      if s[0] == k {
        SubsequenceSkip(s[0], Remove(s[1..], k), s[1..]);
      } else {
        SubsequenceCons(s[0], Remove(s[1..], k), s[1..]);
        if Distinct(s) {
          DistinctCons(s[0], Remove(s[1..], k));
        }
      }
    }
  }

  /** `s` without the elements of `d`, the others in their order. */
  function Drop<T(==,!new)>(s: seq<T>, d: set<T>): (r: seq<T>)
    ensures forall x :: x in r <==> x in s && x !in d
  {
    if s == [] then []
    else if s[0] in d then Drop(s[1..], d)
    else [s[0]] + Drop(s[1..], d)
  }

  /** Dropping keys keeps the relative order of the others, adds no duplicate
      and never lengthens the list. */
  lemma {:induction false} DropKeepsOrder<T(!new)>(s: seq<T>, d: set<T>)
    ensures IsSubsequence(Drop(s, d), s)
    ensures Distinct(s) ==> Distinct(Drop(s, d))
    ensures |Drop(s, d)| <= |s|
  {
    if s != [] {
      DropKeepsOrder(s[1..], d);
      assert [s[0]] + s[1..] == s;
      DistinctTail(s);
      if s[0] in d {
        SubsequenceSkip(s[0], Drop(s[1..], d), s[1..]);
      } else {
        SubsequenceCons(s[0], Drop(s[1..], d), s[1..]);
        if Distinct(s) {
          DistinctCons(s[0], Drop(s[1..], d));
        }
      }
    }
  }

  /** Removing one more key from what is left is dropping it with the rest. */
  lemma {:induction false} RemoveDrop<T(!new)>(s: seq<T>, d: set<T>, k: T)
    ensures Remove(Drop(s, d), k) == Drop(s, d + {k})
  {
    if s != [] {
      RemoveDrop(s[1..], d, k);
      if s[0] !in d {
        assert ([s[0]] + Drop(s[1..], d))[1..] == Drop(s[1..], d);
      }
    }
  }

  /** `move_to_end`: `k` becomes the most recent entry, the others keep their
      order. (The cache only moves keys it holds.) */
  function MoveToEnd<T(==,!new)>(s: seq<T>, k: T): (r: seq<T>)
    ensures |r| > 0 && r[|r| - 1] == k
    ensures forall x :: x in r <==> x in s || x == k
    ensures Distinct(s) && k in s ==> Distinct(r) && |r| == |s|
    ensures Remove(r, k) == Remove(s, k)
  {
    var rest := Remove(s, k);
    RemoveKeepsOrder(s, k);
    RemoveAppend(rest, k);
    assert Distinct(s) && k in s ==> Distinct(rest + [k]) by {
      if Distinct(s) && k in s {
        DistinctSnoc(rest, k);
      }
    }
    rest + [k]
  }

  lemma {:induction false} RemoveAppend<T(!new)>(s: seq<T>, k: T)
    requires k !in s
    ensures Remove(s + [k], k) == s
  {
    if s == [] {
      assert ([k] + [])[1..] == [];
      assert [] + [k] == [k];
    } else {
      assert (s + [k])[1..] == s[1..] + [k];
      RemoveAppend(s[1..], k);
      assert [s[0]] + s[1..] == s;
    }
  }

  /** The keys whose entry is older than `ttl` at `now`. */
  function Expired<K(!new)>(timestamps: map<K, int>, now: int, ttl: int): (e: set<K>)
    ensures forall k :: k in e <==> k in timestamps && now - timestamps[k] > ttl
  {
    set k | k in timestamps && now - timestamps[k] > ttl
  }

  /** An entry that has expired stays expired as time goes on. */
  lemma ExpiredGrows<K(!new)>(timestamps: map<K, int>, now: int, later: int, ttl: int)
    requires now <= later
    ensures Expired(timestamps, now, ttl) <= Expired(timestamps, later, ttl)
  {
  }

  /** A longer TTL expires no more entries. */
  lemma ExpiredShrinksWithTtl<K(!new)>(timestamps: map<K, int>, now: int, ttl: int, longer: int)
    requires ttl <= longer
    ensures Expired(timestamps, now, longer) <= Expired(timestamps, now, ttl)
  {
  }

  /** Stamping a key with the current time (as `put` does for a new key) leaves
      every other key's expiry alone, and the stamped key is expired at that
      moment only under a negative TTL. */
  lemma ExpiredFreshEntry<K(!new)>(timestamps: map<K, int>, key: K, now: int, ttl: int)
    ensures Expired(timestamps[key := now], now, ttl) - {key} == Expired(timestamps, now, ttl) - {key}
    ensures key in Expired(timestamps[key := now], now, ttl) <==> ttl < 0
  {
  }

  /** Bulk expiry keeps exactly the live entries, in their order. */
  lemma {:induction false} ClearExpiredKeepsLive<T(!new)>(order: seq<T>, timestamps: map<T, int>, now: int, ttl: int)
    requires forall k :: k in order ==> k in timestamps
    ensures var kept := Drop(order, Expired(timestamps, now, ttl));
            IsSubsequence(kept, order) &&
            forall k :: k in kept <==> k in order && now - timestamps[k] <= ttl
  {
    DropKeepsOrder(order, Expired(timestamps, now, ttl));
  }

  class AsyncLRUCache {
    const capacity: int
    const ttlSeconds: int
    /** The key order of the `OrderedDict`, least recently used first. */
    var order: seq<RequestKey>
    var cache: map<RequestKey, string>
    var timestamps: map<RequestKey, int>

    ghost predicate Valid()
      reads this
    {
      Distinct(order) &&
      cache.Keys == Elements(order) &&
      timestamps.Keys == cache.Keys &&
      (|order| <= capacity || order == [])
    }

    constructor (capacity: int := DefaultCapacity, ttlSeconds: int := DefaultTtlSeconds)
      ensures Valid()
      ensures this.capacity == capacity && this.ttlSeconds == ttlSeconds
      ensures order == [] && cache == map[] && timestamps == map[]
    {
      this.capacity := capacity;
      this.ttlSeconds := ttlSeconds;
      order := [];
      cache := map[];
      timestamps := map[];
    }

    /** A hit returns the stored text and makes the entry the most recent without
        refreshing its time; an entry older than `ttlSeconds` is deleted and
        misses; an entry exactly `ttlSeconds` old still hits. */
    method Get(content: string, emotion: string, postType: string, now: int) returns (result: Option<string>)
      requires Valid()
      modifies this`order, this`cache, this`timestamps
      ensures Valid()
      ensures var key := GenerateKey(content, emotion, postType);
              if key !in old(cache) then
                result == None &&
                order == old(order) && cache == old(cache) && timestamps == old(timestamps)
              else if now - old(timestamps)[key] > ttlSeconds then
                result == None &&
                order == Remove(old(order), key) &&
                cache == old(cache) - {key} && timestamps == old(timestamps) - {key}
              else
                result == Some(old(cache)[key]) &&
                order == MoveToEnd(old(order), key) &&
                cache == old(cache) && timestamps == old(timestamps)
    {
      var key := GenerateKey(content, emotion, postType);
      if key !in cache {
        return None;
      }
      ElementsMembership(order);
      if now - timestamps[key] > ttlSeconds {
        cache := cache - {key};
        timestamps := timestamps - {key};
        RemoveKeepsOrder(order, key);
        order := Remove(order, key);
        ElementsMembership(order);
        return None;
      }
      order := MoveToEnd(order, key);
      ElementsMembership(order);
      return Some(cache[key]);
    }

    /** An existing key only becomes the most recent (its text and time stay);
        a new key at capacity first evicts the oldest entry. With no entry to
        evict (capacity 0 or less) `popitem` raises KeyError and nothing changes. */
    method Put(content: string, emotion: string, postType: string, result: string, now: int)
      returns (raisedKeyError: bool)
      requires Valid()
      modifies this`order, this`cache, this`timestamps
      ensures Valid()
      ensures var key := GenerateKey(content, emotion, postType);
              var evict := key !in old(cache) && |old(order)| >= capacity;
              (raisedKeyError <==> evict && old(order) == []) &&
              if raisedKeyError then
                order == old(order) && cache == old(cache) && timestamps == old(timestamps)
              else if key in old(cache) then
                order == MoveToEnd(old(order), key) &&
                cache == old(cache) && timestamps == old(timestamps)
              else if evict then
                var oldest := old(order)[0];
                order == old(order)[1..] + [key] &&
                cache == (old(cache) - {oldest})[key := result] &&
                timestamps == (old(timestamps) - {oldest})[key := now]
              else
                order == old(order) + [key] &&
                cache == old(cache)[key := result] &&
                timestamps == old(timestamps)[key := now]
    {
      var key := GenerateKey(content, emotion, postType);
      raisedKeyError := false;
      ElementsHas(order, key);
      if key in cache {
        order := MoveToEnd(order, key);
        ElementsMembership(order);
        ElementsMembership(old(order));
        return;
      }
      if |order| >= capacity {
        if order == [] {
          return true;
        }
        var oldest := order[0];
        DistinctTail(order);
        ElementsHas(order[1..], oldest);
        ElementsHas(order[1..], key);
        order := order[1..];
        cache := cache - {oldest};
        timestamps := timestamps - {oldest};
      }
      DistinctSnoc(order, key);
      ElementsSnoc(order, key);
      order := order + [key];
      cache := cache[key := result];
      timestamps := timestamps[key := now];
    }

    /** Deletes exactly the entries older than `ttlSeconds`; the rest keep their
        order, values and times. */
    method ClearExpired(now: int)
      requires Valid()
      modifies this`order, this`cache, this`timestamps
      ensures Valid()
      ensures var expired := Expired(old(timestamps), now, ttlSeconds);
              order == Drop(old(order), expired) &&
              cache == old(cache) - expired && timestamps == old(timestamps) - expired
    {
      var expired := Expired(timestamps, now, ttlSeconds);
      ghost var start := order;
      var pending, removed := expired, {};
      RemoveDropEmpty(order);
      while pending != {}
        invariant pending + removed == expired && pending !! removed
        invariant order == Drop(start, removed)
        invariant cache == old(cache) - removed
        invariant timestamps == old(timestamps) - removed
        decreases pending
      {
        var k :| k in pending;
        MinusStep(old(cache), removed, k);
        MinusStep(old(timestamps), removed, k);
        cache := cache - {k};
        timestamps := timestamps - {k};
        RemoveDrop(start, removed, k);
        order := Remove(order, k);
        pending, removed := pending - {k}, removed + {k};
      }
      DropKeepsInvariant(start, old(cache), old(timestamps), expired);
    }
  }

  /** Deleting a set of keys from the order and from both maps keeps them in
      step, distinct and no longer than before. */
  lemma DropKeepsInvariant<K(!new), V>(order: seq<K>, cache: map<K, V>, timestamps: map<K, int>, d: set<K>)
    requires Distinct(order) && cache.Keys == Elements(order) && timestamps.Keys == cache.Keys
    ensures Distinct(Drop(order, d)) && |Drop(order, d)| <= |order|
    ensures (cache - d).Keys == Elements(Drop(order, d)) && (timestamps - d).Keys == (cache - d).Keys
  {
    DropKeepsOrder(order, d);
    ElementsMembership(order);
    ElementsMembership(Drop(order, d));
  }

  lemma MinusStep<K, V>(m: map<K, V>, removed: set<K>, k: K)
    ensures (m - removed) - {k} == m - (removed + {k})
  {
  }

  lemma {:induction false} RemoveDropEmpty<T(!new)>(s: seq<T>)
    ensures Drop(s, {}) == s
  {
    if s != [] {
      RemoveDropEmpty(s[1..]);
      assert [s[0]] + s[1..] == s;
    }
  }

  /** What was just stored is found again while it is fresh. */
  method PutThenGet(c: AsyncLRUCache, content: string, emotion: string, postType: string,
                    text: string, now: int, later: int)
    returns (found: Option<string>)
    requires c.Valid() && c.capacity >= 1
    requires GenerateKey(content, emotion, postType) !in c.cache
    requires 0 <= later - now <= c.ttlSeconds
    modifies c
    ensures c.Valid()
    ensures found == Some(text)
  {
    var raised := c.Put(content, emotion, postType, text, now);
    found := c.Get(content, emotion, postType, later);
  }
}
