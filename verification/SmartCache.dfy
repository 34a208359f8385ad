/** The in-memory TTL and LRU cache of backend/cache/smart_cache.py.

The `OrderedDict` is a sequence of entries with distinct keys, least recently used first.  The
clock is passed in; `set` reads it up to three times, so it takes three readings. */
module SmartCache {
  import opened Basics

  datatype Entry<V> = Entry(key: string, value: V, expireAt: real)

  datatype Stats = Stats(hits: nat, misses: nat, evictions: nat, sets: nat)

  datatype State<V> = State(store: seq<Entry<V>>, stats: Stats, lastCleanup: real)

  datatype Config = Config(maxSize: int, defaultTtl: real)

  const CLEANUP_INTERVAL := 60.0

  function Keys<V>(store: seq<Entry<V>>): set<string> {
    if store == [] then {} else {store[0].key} + Keys(store[1..])
  }

  function KeySet(keys: seq<string>): set<string> { set k | k in keys }

  ghost predicate Distinct<V>(store: seq<Entry<V>>) {
    forall i, j :: 0 <= i < j < |store| ==> store[i].key != store[j].key
  }

  function Find<V>(store: seq<Entry<V>>, key: string): (r: Option<Entry<V>>)
    ensures r.Some? ==> r.value in store && r.value.key == key
    ensures r.None? <==> key !in Keys(store)
  {
    if store == [] then None
    else if store[0].key == key then Some(store[0])
    else
      assert store == [store[0]] + store[1..];
      Find(store[1..], key)
  }

  /** The store without the entries of `keys`. */
  function Without<V>(store: seq<Entry<V>>, keys: set<string>): seq<Entry<V>> {
    if store == [] then []
    else (if store[0].key in keys then [] else [store[0]]) + Without(store[1..], keys)
  }

  function ExpiredKeys<V>(store: seq<Entry<V>>, now: real): set<string> {
    set i | 0 <= i < |store| && now > store[i].expireAt :: store[i].key
  }

  function PrefixKeys<V>(store: seq<Entry<V>>, prefix: string): set<string> {
    set i | 0 <= i < |store| && prefix <= store[i].key :: store[i].key
  }

  // ---------------------------------------------------------------------------------------
  // What each operation does
  // ---------------------------------------------------------------------------------------

  datatype Op<V> =
    | Get(key: string, now: real)
    | Set(key: string, value: V, ttl: Option<real>, now: real, later: real, latest: real)
    | Delete(key: string)
    | InvalidatePrefix(prefix: string)
    | Clear

  function Expiry<V>(c: Config, op: Op<V>): real
    requires op.Set?
  {
    op.now + (if op.ttl.Some? then op.ttl.value else c.defaultTtl)
  }

  predicate Hits<V>(s: State<V>, key: string, now: real) {
    var e := Find(s.store, key);
    e.Some? && now <= e.value.expireAt
  }

  /** What `get` returns. */
  function Answer<V>(s: State<V>, key: string, now: real): Option<V> {
    if Hits(s, key, now) then Some(Find(s.store, key).value.value) else None
  }

  function AfterGet<V>(s: State<V>, key: string, now: real): State<V> {
    var e := Find(s.store, key);
    if e.None? then s.(stats := s.stats.(misses := s.stats.misses + 1))
    else if now > e.value.expireAt then
      s.(store := Without(s.store, {key}), stats := s.stats.(misses := s.stats.misses + 1))
    else
      s.(store := Without(s.store, {key}) + [e.value], stats := s.stats.(hits := s.stats.hits + 1))
  }

  /** `popitem` on an empty dictionary raises: only when the capacity is not positive. */
  predicate SetRaises<V>(c: Config, s: State<V>) {
    s.store == [] && c.maxSize <= 0
  }

  /** The store right after the entry is written, before the periodic cleanup. */
  function Placed<V>(c: Config, store: seq<Entry<V>>, e: Entry<V>): seq<Entry<V>> {
    if e.key in Keys(store) then Without(store, {e.key}) + [e]
    else if store != [] && |store| >= c.maxSize then store[1..] + [e]
    else store + [e]
  }

  function AfterSet<V>(c: Config, s: State<V>, op: Op<V>): State<V>
    requires op.Set?
  {
    if SetRaises(c, s) then s
    else
      var e := Entry(op.key, op.value, Expiry(c, op));
      var placed := Placed(c, s.store, e);
      var evicted := op.key !in Keys(s.store) && |s.store| >= c.maxSize;
      var stats := s.stats.(sets := s.stats.sets + 1, evictions := s.stats.evictions + (if evicted then 1 else 0));
      if op.later - s.lastCleanup > CLEANUP_INTERVAL then
        State(Without(placed, ExpiredKeys(placed, op.latest)), stats, op.later)
      else State(placed, stats, s.lastCleanup)
  }

  function Step<V>(c: Config, s: State<V>, op: Op<V>): State<V> {
    match op
    case Get(key, now) => AfterGet(s, key, now)
    case Set(_, _, _, _, _, _) => AfterSet(c, s, op)
    case Delete(key) => s.(store := Without(s.store, {key}))
    case InvalidatePrefix(prefix) => s.(store := Without(s.store, PrefixKeys(s.store, prefix)))
    case Clear => s.(store := [])
  }

  function Run<V>(c: Config, s: State<V>, ops: seq<Op<V>>): State<V> {
    if ops == [] then s else Step(c, Run(c, s, ops[..|ops| - 1]), ops[|ops| - 1])
  }

  function Fresh<V>(now: real): State<V> { State([], Stats(0, 0, 0, 0), now) }

  // ---------------------------------------------------------------------------------------
  // The class
  // ---------------------------------------------------------------------------------------

  class Cache<V> {
    const config: Config
    var store: seq<Entry<V>>
    var stats: Stats
    var lastCleanup: real

    ghost predicate Valid()
      reads this
    {
      Distinct(store)
    }

    ghost function Contents(): State<V>
      reads this
    {
      State(store, stats, lastCleanup)
    }

    constructor (config: Config, now: real)
      ensures Valid() && Contents() == Fresh(now) && this.config == config
    {
      this.config := config;
      store, stats, lastCleanup := [], Stats(0, 0, 0, 0), now;
    }

    method Get(key: string, now: real) returns (r: Option<V>)
      requires Valid()
      modifies this
      ensures Valid() && Contents() == old(AfterGet(Contents(), key, now))
      ensures r == old(Answer(Contents(), key, now))
    {
      WithoutDistinct(store, {key});
      var entry := Find(store, key);
      if entry.None? {
        stats := stats.(misses := stats.misses + 1);
        return None;
      }
      if now > entry.value.expireAt {
        store := Without(store, {key});
        stats := stats.(misses := stats.misses + 1);
        return None;
      }
      ToEndDistinct(store, entry.value);
      store := Without(store, {key}) + [entry.value];
      stats := stats.(hits := stats.hits + 1);
      return Some(entry.value.value);
    }

    /** Returns false when the source raises. */
    method Set(key: string, value: V, ttl: Option<real>, now: real, later: real, latest: real) returns (ok: bool)
      requires Valid()
      modifies this
      ensures Valid() && ok == !old(SetRaises(config, Contents()))
      ensures Contents() == old(AfterSet(config, Contents(), Op.Set(key, value, ttl, now, later, latest)))
    {
      var expireAt := now + (if ttl.Some? then ttl.value else config.defaultTtl);
      var e := Entry(key, value, expireAt);
      if key in Keys(store) {
        ToEndDistinct(store, e);
        store := Without(store, {key}) + [e];
      } else {
        if |store| >= config.maxSize {
          if store == [] {
            return false;
          }
          KeysOfTail(store);
          store := store[1..];
          stats := stats.(evictions := stats.evictions + 1);
        }
        AppendDistinct(store, e);
        store := store + [e];
      }
      stats := stats.(sets := stats.sets + 1);
      if later - lastCleanup > CLEANUP_INTERVAL {
        Cleanup(latest);
        lastCleanup := later;
      }
      return true;
    }

    /** Collects the expired keys, then deletes them one by one. */
    method Cleanup(now: real)
      requires Valid()
      modifies this`store
      ensures Valid() && store == old(Without(store, ExpiredKeys(store, now)))
    {
      var expired: seq<string>, entries := [], store;
      for i := 0 to |entries|
        invariant store == entries
        invariant forall k :: k in expired <==> exists j :: 0 <= j < i && now > entries[j].expireAt && entries[j].key == k
      {
        if now > entries[i].expireAt {
          expired := expired + [entries[i].key];
        }
      }
      assert KeySet(expired) == ExpiredKeys(store, now);
      DeleteAll(expired);
    }

    method DeleteAll(keys: seq<string>)
      requires Valid()
      modifies this`store
      ensures Valid() && store == old(Without(store, KeySet(keys)))
    {
      WithoutAbsent(store, KeySet(keys[..0]));
      for i := 0 to |keys|
        invariant Valid() && store == Without(old(store), KeySet(keys[..i]))
      {
        WithoutTwice(old(store), KeySet(keys[..i]), {keys[i]});
        assert KeySet(keys[..i + 1]) == KeySet(keys[..i]) + {keys[i]};
        WithoutDistinct(store, {keys[i]});
        store := Without(store, {keys[i]});
      }
      assert keys[..|keys|] == keys;
    }

    method Delete(key: string) returns (existed: bool)
      requires Valid()
      modifies this`store
      ensures Valid() && existed == (key in Keys(old(store)))
      ensures store == old(Without(store, {key}))
    {
      existed := key in Keys(store);
      if existed {
        WithoutDistinct(store, {key});
        store := Without(store, {key});
      } else {
        WithoutAbsent(store, {key});
      }
    }

    method InvalidatePrefix(prefix: string) returns (count: nat)
      requires Valid()
      modifies this`store
      ensures Valid() && store == old(Without(store, PrefixKeys(store, prefix)))
      ensures count == old(|store|) - |store|
    {
      var doomed: seq<string>, entries := [], store;
      ghost var gone := PrefixKeys(entries, prefix);
      for i := 0 to |entries|
        invariant store == entries
        invariant forall k :: k in doomed <==> exists j :: 0 <= j < i && prefix <= entries[j].key && entries[j].key == k
        invariant |doomed| + |Without(entries[..i], gone)| == i
      {
        assert entries[..i + 1] == entries[..i] + [entries[i]];
        WithoutAppend(entries[..i], [entries[i]], gone);
        assert entries[i].key in gone <==> prefix <= entries[i].key;
        if prefix <= entries[i].key {
          doomed := doomed + [entries[i].key];
        }
      }
      assert entries[..|entries|] == entries;
      assert KeySet(doomed) == gone;
      count := |doomed|;
      DeleteAll(doomed);
    }

    method Clear()
      modifies this`store
      ensures Valid() && store == []
    {
      store := [];
    }
  }

  // ---------------------------------------------------------------------------------------
  // Removing keys
  // ---------------------------------------------------------------------------------------

  lemma {:induction false} WithoutAppend<V>(a: seq<Entry<V>>, b: seq<Entry<V>>, keys: set<string>)
    ensures Without(a + b, keys) == Without(a, keys) + Without(b, keys)
  {
    if a == [] {
      assert a + b == b;
    } else {
      WithoutAppend(a[1..], b, keys);
      var head := if a[0].key in keys then [] else [a[0]];
      var x, y := Without(a[1..], keys), Without(b, keys);
      assert (a + b)[0] == a[0] && (a + b)[1..] == a[1..] + b;
      calc {
        Without(a + b, keys);
        head + Without(a[1..] + b, keys);
        head + (x + y);
        (head + x) + y;
        Without(a, keys) + y;
      }
    }
  }

  lemma {:induction false} KeysAreKeys<V>(store: seq<Entry<V>>)
    ensures forall i :: 0 <= i < |store| ==> store[i].key in Keys(store)
    ensures forall k :: k in Keys(store) ==> exists i :: 0 <= i < |store| && store[i].key == k
  {
    if store != [] {
      KeysAreKeys(store[1..]);
      assert forall i :: 1 <= i < |store| ==> store[i] == store[1..][i - 1];
    }
  }

  lemma {:induction false} WithoutIsFilter<V>(store: seq<Entry<V>>, keys: set<string>)
    ensures |Without(store, keys)| <= |store|
    ensures Keys(Without(store, keys)) == Keys(store) - keys
    ensures forall e :: e in Without(store, keys) ==> e in store && e.key !in keys
  {
    if store != [] {
      WithoutIsFilter(store[1..], keys);
      var rest := Without(store[1..], keys);
      assert ([store[0]] + rest)[1..] == rest;
      assert [] + rest == rest;
    }
  }

  lemma {:induction false} WithoutDistinct<V>(store: seq<Entry<V>>, keys: set<string>)
    requires Distinct(store)
    ensures Distinct(Without(store, keys))
  {
    if store != [] {
      var rest := Without(store[1..], keys);
      WithoutDistinct(store[1..], keys);
      WithoutIsFilter(store[1..], keys);
      forall i | 0 <= i < |rest| ensures rest[i].key != store[0].key {
        assert rest[i] in rest;
      }
    }
  }

  lemma AppendDistinct<V>(store: seq<Entry<V>>, e: Entry<V>)
    requires Distinct(store) && e.key !in Keys(store)
    ensures Distinct(store + [e])
  {
    KeysAreKeys(store);
  }

  lemma ToEndDistinct<V>(store: seq<Entry<V>>, e: Entry<V>)
    requires Distinct(store)
    ensures Distinct(Without(store, {e.key}) + [e])
  {
    WithoutDistinct(store, {e.key});
    WithoutIsFilter(store, {e.key});
    AppendDistinct(Without(store, {e.key}), e);
  }

  lemma KeysOfTail<V>(store: seq<Entry<V>>)
    requires store != []
    ensures Keys(store[1..]) <= Keys(store)
  {
  }

  lemma {:induction false} WithoutTwice<V>(store: seq<Entry<V>>, a: set<string>, b: set<string>)
    ensures Without(Without(store, a), b) == Without(store, a + b)
  {
    if store != [] {
      WithoutTwice(store[1..], a, b);
      WithoutAppend(if store[0].key in a then [] else [store[0]], Without(store[1..], a), b);
    }
  }

  lemma {:induction false} WithoutAbsent<V>(store: seq<Entry<V>>, keys: set<string>)
    requires keys !! Keys(store)
    ensures Without(store, keys) == store
  {
    if store != [] {
      WithoutAbsent(store[1..], keys);
      assert [store[0]] + store[1..] == store;
    }
  }
}
