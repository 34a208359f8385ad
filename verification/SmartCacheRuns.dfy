/** What the cache promises over whole runs: agreement with a timed map, LRU retention, and the
counters (backend/cache/smart_cache.py). */
module SmartCacheRuns {
  import opened Basics
  import opened SmartCache

  // ---------------------------------------------------------------------------------------
  // Reference: an unbounded timed map that only forgets what it is told to forget
  // ---------------------------------------------------------------------------------------

  predicate Removes<V>(op: Op<V>, key: string) {
    match op
    case Delete(k) => k == key
    case InvalidatePrefix(prefix) => prefix <= key
    case Clear => true
    case _ => false
  }

  predicate Writes<V>(op: Op<V>, key: string) {
    op.Set? && op.key == key
  }

  /** The value and expiry of `key` in the timed map after `ops`. */
  function Timed<V>(c: Config, ops: seq<Op<V>>, key: string): Option<(V, real)> {
    if ops == [] then None
    else
      var op := ops[|ops| - 1];
      if Writes(op, key) then Some((op.value, Expiry(c, op)))
      else if Removes(op, key) then None
      else Timed(c, ops[..|ops| - 1], key)
  }

  /** `ops[i]` is the latest write of `key` and nothing has removed it since. */
  ghost predicate LatestWrite<V>(ops: seq<Op<V>>, key: string, i: nat) {
    && i < |ops| && Writes(ops[i], key)
    && forall j :: i < j < |ops| ==> !Writes(ops[j], key) && !Removes(ops[j], key)
  }

  lemma {:induction false} TimedIsLatestWrite<V>(c: Config, ops: seq<Op<V>>, key: string)
    ensures Timed(c, ops, key).Some? <==> exists i: nat :: LatestWrite(ops, key, i)
    ensures forall i: nat :: LatestWrite(ops, key, i) ==>
                        Timed(c, ops, key) == Some((ops[i].value,
                          ops[i].now + (match ops[i].ttl case Some(ttl) => ttl case None => c.defaultTtl)))
  {
    if ops != [] {
      var before, n := ops[..|ops| - 1], |ops| - 1;
      TimedIsLatestWrite(c, before, key);
      if Writes(ops[n], key) {
        assert LatestWrite(ops, key, n);
      } else {
        forall i: nat ensures LatestWrite(ops, key, i) <==> LatestWrite(before, key, i) && !Removes(ops[n], key) {
          if LatestWrite(ops, key, i) {
            assert i != n;
            assert forall j :: i < j < n ==> before[j] == ops[j];
          }
          if LatestWrite(before, key, i) && !Removes(ops[n], key) {
            assert forall j :: i < j < |ops| ==> j == n || before[j] == ops[j];
          }
        }
      }
    }
  }

  // ---------------------------------------------------------------------------------------
  // Soundness
  // ---------------------------------------------------------------------------------------

  /** Every stored entry is the timed map's, keys are distinct and the capacity holds. */
  ghost predicate Agrees<V>(c: Config, s: State<V>, ops: seq<Op<V>>) {
    && Distinct(s.store)
    && (|s.store| <= c.maxSize || s.store == [])
    && forall e :: e in s.store ==> Timed(c, ops, e.key) == Some((e.value, e.expireAt))
  }

  lemma AgreesWithout<V>(c: Config, s: State<V>, ops: seq<Op<V>>, keys: set<string>)
    requires Agrees(c, s, ops)
    ensures Agrees(c, s.(store := Without(s.store, keys)), ops)
    ensures forall e :: e in Without(s.store, keys) ==> e.key !in keys
  {
    WithoutDistinct(s.store, keys);
    WithoutIsFilter(s.store, keys);
  }

  lemma {:induction false} FoundLeaves<V>(store: seq<Entry<V>>, key: string)
    requires key in Keys(store)
    ensures |Without(store, {key})| < |store|
  {
    if store[0].key != key {
      FoundLeaves(store[1..], key);
    } else {
      WithoutIsFilter(store[1..], {key});
    }
  }

  /** Writing an entry keeps the store distinct and within capacity. */
  lemma PlacedAgrees<V>(c: Config, store: seq<Entry<V>>, e: Entry<V>)
    requires Distinct(store) && (|store| <= c.maxSize || store == []) && !(store == [] && c.maxSize <= 0)
    ensures Distinct(Placed(c, store, e)) && |Placed(c, store, e)| <= c.maxSize
    ensures forall x :: x in Placed(c, store, e) ==> x == e || (x in store && x.key != e.key)
  {
    if e.key in Keys(store) {
      ToEndDistinct(store, e);
      FoundLeaves(store, e.key);
      WithoutIsFilter(store, {e.key});
    } else {
      KeysAreKeys(store);
      AppendDistinct(store, e);
      if store != [] && |store| >= c.maxSize {
        AppendDistinct(store[1..], e);
      }
    }
  }

  lemma SetAgrees<V>(c: Config, s: State<V>, ops: seq<Op<V>>, op: Op<V>)
    requires Agrees(c, s, ops) && op.Set?
    ensures Agrees(c, AfterSet(c, s, op), ops + [op])
  {
    assert (ops + [op])[..|ops|] == ops;
    if !SetRaises(c, s) {
      var e := Entry(op.key, op.value, Expiry(c, op));
      var placed := Placed(c, s.store, e);
      PlacedAgrees(c, s.store, e);
      var t := s.(store := placed);
      assert Agrees(c, t, ops + [op]);
      AgreesWithout(c, t, ops + [op], ExpiredKeys(placed, op.latest));
    }
  }

  lemma StepAgrees<V>(c: Config, s: State<V>, ops: seq<Op<V>>, op: Op<V>)
    requires Agrees(c, s, ops)
    ensures Agrees(c, Step(c, s, op), ops + [op])
  {
    assert (ops + [op])[..|ops|] == ops;
    match op
    case Get(key, now) =>
      AgreesWithout(c, s, ops, {key});
      var e := Find(s.store, key);
      if Hits(s, key, now) {
        ToEndDistinct(s.store, e.value);
        FoundLeaves(s.store, key);
      }
    case Set(_, _, _, _, _, _) => SetAgrees(c, s, ops, op);
    case Delete(key) => AgreesWithout(c, s, ops, {key});
    case InvalidatePrefix(prefix) =>
      AgreesWithout(c, s, ops, PrefixKeys(s.store, prefix));
      WithoutIsFilter(s.store, PrefixKeys(s.store, prefix));
    case Clear =>
  }

  /** Over every run the store is a part of the timed map and never outgrows the capacity. */
  lemma {:induction false} RunAgrees<V>(c: Config, start: real, ops: seq<Op<V>>)
    ensures Agrees(c, Run(c, Fresh(start), ops), ops)
  {
    if ops != [] {
      var before := ops[..|ops| - 1];
      RunAgrees(c, start, before);
      StepAgrees(c, Run(c, Fresh(start), before), before, ops[|ops| - 1]);
      assert before + [ops[|ops| - 1]] == ops;
    }
  }

  /** MAIN: whatever `get` returns after any run is the value of the latest `set` of that key,
      nothing has removed the key since, and it is not past its expiry. */
  lemma GetIsSound<V>(c: Config, start: real, ops: seq<Op<V>>, key: string, now: real)
    requires Answer(Run(c, Fresh(start), ops), key, now).Some?
    ensures exists i: nat :: LatestWrite(ops, key, i)
                        && Answer(Run(c, Fresh(start), ops), key, now) == Some(ops[i].value)
                        && now <= ops[i].now + (match ops[i].ttl case Some(ttl) => ttl case None => c.defaultTtl)
  {
    RunAgrees(c, start, ops);
    TimedIsLatestWrite(c, ops, key);
    var e := Find(Run(c, Fresh(start), ops).store, key).value;
    assert Timed(c, ops, key) == Some((e.value, e.expireAt));
  }

  lemma CapacityHolds<V>(c: Config, start: real, ops: seq<Op<V>>)
    requires c.maxSize >= 0
    ensures |Run(c, Fresh(start), ops).store| <= c.maxSize
  {
    RunAgrees(c, start, ops);
  }

  // ---------------------------------------------------------------------------------------
  // LRU retention
  // ---------------------------------------------------------------------------------------

  /** The keys other than `key` that `ops`, run from `s`, set or hit. */
  function Touched<V>(c: Config, s: State<V>, ops: seq<Op<V>>, key: string): set<string> {
    if ops == [] then {}
    else
      var before, op := ops[..|ops| - 1], ops[|ops| - 1];
      Touched(c, s, before, key) + TouchedBy(Run(c, s, before), op) - {key}
  }

  function TouchedBy<V>(s: State<V>, op: Op<V>): set<string> {
    if op.Set? then {op.key} else if op.Get? && Hits(s, op.key, op.now) then {op.key} else {}
  }

  /** The clock readings of `op` are not past `t`. */
  predicate ReadsUpTo<V>(op: Op<V>, t: real) {
    match op
    case Get(_, now) => now <= t
    case Set(_, _, _, now, later, latest) => now <= t && later <= t && latest <= t
    case _ => true
  }

  /** `e` is stored, and every entry used more recently has its key in `newer`. */
  ghost predicate Kept<V>(store: seq<Entry<V>>, e: Entry<V>, newer: set<string>) {
    exists i :: 0 <= i < |store| && store[i] == e && Keys(store[i + 1..]) <= newer
  }

  lemma {:induction false} KeysAppend<V>(a: seq<Entry<V>>, b: seq<Entry<V>>)
    ensures Keys(a + b) == Keys(a) + Keys(b)
  {
    if a == [] {
      assert a + b == b;
    } else {
      KeysAppend(a[1..], b);
      assert (a + b)[1..] == a[1..] + b;
    }
  }

  lemma WithoutAround<V>(a: seq<Entry<V>>, e: Entry<V>, b: seq<Entry<V>>, keys: set<string>)
    requires e.key !in keys
    ensures Without(a + ([e] + b), keys) == Without(a, keys) + ([e] + Without(b, keys))
  {
    WithoutAppend(a, [e] + b, keys);
    assert ([e] + b)[1..] == b;
  }

  lemma KeptWithout<V>(store: seq<Entry<V>>, e: Entry<V>, newer: set<string>, keys: set<string>)
    requires Kept(store, e, newer) && e.key !in keys
    ensures Kept(Without(store, keys), e, newer)
  {
    var i :| 0 <= i < |store| && store[i] == e && Keys(store[i + 1..]) <= newer;
    var a, b := store[..i], store[i + 1..];
    assert store == a + ([e] + b);
    WithoutAround(a, e, b, keys);
    WithoutIsFilter(b, keys);
    KeptAround(Without(a, keys), e, Without(b, keys), newer);
  }

  lemma KeptAround<V>(a: seq<Entry<V>>, e: Entry<V>, b: seq<Entry<V>>, newer: set<string>)
    requires Keys(b) <= newer
    ensures Kept(a + ([e] + b), e, newer)
  {
    var s := a + ([e] + b);
    assert s[|a|] == e && s[|a| + 1..] == b;
  }

  lemma KeptAppend<V>(store: seq<Entry<V>>, e: Entry<V>, newer: set<string>, x: Entry<V>)
    requires Kept(store, e, newer)
    ensures Kept(store + [x], e, newer + {x.key})
  {
    var i :| 0 <= i < |store| && store[i] == e && Keys(store[i + 1..]) <= newer;
    assert (store + [x])[i + 1..] == store[i + 1..] + [x];
    KeysAppend(store[i + 1..], [x]);
    assert Keys([x]) == {x.key} by { assert [x][1..] == []; }
    assert (store + [x])[i] == e;
  }

  lemma KeptAtEnd<V>(store: seq<Entry<V>>, e: Entry<V>, newer: set<string>)
    ensures Kept(store + [e], e, newer)
  {
    assert (store + [e])[|store|] == e && (store + [e])[|store| + 1..] == [];
  }

  lemma {:induction false} DistinctCount<V>(store: seq<Entry<V>>)
    requires Distinct(store)
    ensures |Keys(store)| == |store|
  {
    if store != [] {
      DistinctCount(store[1..]);
      KeysAreKeys(store[1..]);
      assert store[0].key !in Keys(store[1..]);
    }
  }

  lemma SubsetCount(a: set<string>, b: set<string>)
    requires a <= b
    ensures |a| <= |b|
  {
    if a != {} {
      var x :| x in a;
      SubsetCount(a - {x}, b - {x});
    }
  }

  /** The heart of LRU: an eviction takes `e` only if `maxSize` other keys are newer. */
  lemma EvictionSpares<V>(c: Config, store: seq<Entry<V>>, e: Entry<V>, newer: set<string>, x: Entry<V>)
    requires Distinct(store) && Kept(store, e, newer)
    requires x.key !in Keys(store) && |store| >= c.maxSize
    requires |newer + {x.key}| < c.maxSize
    ensures Kept(store[1..], e, newer)
  {
    var i :| 0 <= i < |store| && store[i] == e && Keys(store[i + 1..]) <= newer;
    if i == 0 {
      DistinctCount(store[1..]);
      SubsetCount(Keys(store[1..]) + {x.key}, newer + {x.key});
      assert false;
    }
    assert store[1..][i - 1] == e && store[1..][i..] == store[i + 1..];
  }

  lemma PlacedKeeps<V>(c: Config, store: seq<Entry<V>>, e: Entry<V>, newer: set<string>, x: Entry<V>)
    requires Distinct(store) && Kept(store, e, newer) && x.key != e.key
    requires |newer + {x.key}| < c.maxSize
    ensures Kept(Placed(c, store, x), e, newer + {x.key})
  {
    if x.key in Keys(store) {
      KeptWithout(store, e, newer, {x.key});
      KeptAppend(Without(store, {x.key}), e, newer, x);
    } else if |store| >= c.maxSize {
      EvictionSpares(c, store, e, newer, x);
      KeptAppend(store[1..], e, newer, x);
    } else {
      KeptAppend(store, e, newer, x);
    }
  }

  lemma {:induction false} KeptFound<V>(store: seq<Entry<V>>, e: Entry<V>, newer: set<string>)
    requires Distinct(store) && Kept(store, e, newer)
    ensures Find(store, e.key) == Some(e)
  {
    var i :| 0 <= i < |store| && store[i] == e && Keys(store[i + 1..]) <= newer;
    if i > 0 {
      assert store[1..][i - 1] == e && store[1..][i..] == store[i + 1..];
      KeptFound(store[1..], e, newer);
    }
  }

  lemma FoundIsUnique<V>(store: seq<Entry<V>>, e: Entry<V>)
    requires Distinct(store) && e in store
    ensures Find(store, e.key) == Some(e)
  {
  }

  /** Is `key` expired by the readings the cleanup uses?  Not if they are within its expiry. */
  lemma NotExpired<V>(store: seq<Entry<V>>, e: Entry<V>, now: real)
    requires Distinct(store) && e in store && now <= e.expireAt
    ensures e.key !in ExpiredKeys(store, now)
  {
  }

  lemma SetKeeps<V>(c: Config, s: State<V>, op: Op<V>, e: Entry<V>, newer: set<string>)
    requires Distinct(s.store) && Kept(s.store, e, newer)
    requires op.Set? && op.key != e.key && ReadsUpTo(op, e.expireAt)
    requires |newer + {op.key}| < c.maxSize
    requires |s.store| <= c.maxSize
    ensures Kept(AfterSet(c, s, op).store, e, newer + {op.key})
  {
    var x := Entry(op.key, op.value, Expiry(c, op));
    var placed := Placed(c, s.store, x);
    PlacedKeeps(c, s.store, e, newer, x);
    PlacedAgrees(c, s.store, x);
    NotExpired(placed, e, op.latest);
    KeptWithout(placed, e, newer + {op.key}, ExpiredKeys(placed, op.latest));
  }

  lemma GetKeeps<V>(s: State<V>, key: string, now: real, e: Entry<V>, newer: set<string>)
    requires Distinct(s.store) && Kept(s.store, e, newer) && now <= e.expireAt
    ensures Kept(AfterGet(s, key, now).store, e, newer + TouchedBy(s, Op<V>.Get(key, now)) - {e.key})
  {
    var found := Find(s.store, key);
    KeptFound(s.store, e, newer);
    if key == e.key {
      KeptAtEnd(Without(s.store, {key}), e, newer - {key});
    } else {
      KeptNewerIsOther(s.store, e, newer);
      if found.Some? {
        KeptWithout(s.store, e, newer - {e.key}, {key});
        KeptAppend(Without(s.store, {key}), e, newer - {e.key}, found.value);
        assert newer - {e.key} + {key} == newer + {key} - {e.key};
      }
    }
  }

  lemma KeptNewerIsOther<V>(store: seq<Entry<V>>, e: Entry<V>, newer: set<string>)
    requires Distinct(store) && Kept(store, e, newer)
    ensures Kept(store, e, newer - {e.key})
  {
    var i :| 0 <= i < |store| && store[i] == e && Keys(store[i + 1..]) <= newer;
    var b := store[i + 1..];
    KeysAreKeys(b);
    assert forall j :: 0 <= j < |b| ==> b[j] == store[i + 1 + j];
    assert e.key !in Keys(b);
  }

  /** Nothing in `ops` rewrites or removes `key`, and no clock reading is past `t`. */
  ghost predicate Spares<V>(ops: seq<Op<V>>, key: string, t: real) {
    forall i :: 0 <= i < |ops| ==> !Writes(ops[i], key) && !Removes(ops[i], key) && ReadsUpTo(ops[i], t)
  }

  lemma SparesPrefix<V>(ops: seq<Op<V>>, key: string, t: real)
    requires Spares(ops, key, t) && ops != []
    ensures Spares(ops[..|ops| - 1], key, t)
  {
  }

  lemma {:induction false} AgreesFrom<V>(c: Config, s: State<V>, past: seq<Op<V>>, ops: seq<Op<V>>)
    requires Agrees(c, s, past)
    ensures Agrees(c, Run(c, s, ops), past + ops)
  {
    if ops == [] {
      assert past + [] == past;
    } else {
      var before, op := ops[..|ops| - 1], ops[|ops| - 1];
      AgreesFrom(c, s, past, before);
      StepAgrees(c, Run(c, s, before), past + before, op);
      assert past + before + [op] == past + ops;
    }
  }

  /** From the moment `e` is the most recent entry, it stays as long as fewer than `maxSize`
      distinct other keys are set or hit, through lazy expiry, cleanup and other removals. */
  lemma {:induction false} Retained<V>(c: Config, s: State<V>, past: seq<Op<V>>, ops: seq<Op<V>>, e: Entry<V>)
    requires Agrees(c, s, past) && Kept(s.store, e, {})
    requires Spares(ops, e.key, e.expireAt)
    requires |Touched(c, s, ops, e.key)| < c.maxSize
    ensures Kept(Run(c, s, ops).store, e, Touched(c, s, ops, e.key))
  {
    if ops != [] {
      var before, op := ops[..|ops| - 1], ops[|ops| - 1];
      var newer := Touched(c, s, before, e.key);
      TouchedExcludes(c, s, before, e.key);
      SubsetCount(newer, Touched(c, s, ops, e.key));
      SparesPrefix(ops, e.key, e.expireAt);
      Retained(c, s, past, before, e);
      AgreesFrom(c, s, past, before);
      var t := Run(c, s, before);
      KeptInCapacity(c, t, past + before, e, newer);
      KeptStep(c, t, op, e, newer);
    }
  }

  lemma {:induction false} TouchedExcludes<V>(c: Config, s: State<V>, ops: seq<Op<V>>, key: string)
    ensures key !in Touched(c, s, ops, key)
  {
  }

  lemma KeptInCapacity<V>(c: Config, s: State<V>, past: seq<Op<V>>, e: Entry<V>, newer: set<string>)
    requires Agrees(c, s, past) && Kept(s.store, e, newer)
    ensures Distinct(s.store) && |s.store| <= c.maxSize
  {
  }

  lemma KeptStep<V>(c: Config, s: State<V>, op: Op<V>, e: Entry<V>, newer: set<string>)
    requires Distinct(s.store) && |s.store| <= c.maxSize && Kept(s.store, e, newer) && e.key !in newer
    requires !Writes(op, e.key) && !Removes(op, e.key) && ReadsUpTo(op, e.expireAt)
    requires |newer + TouchedBy(s, op) - {e.key}| < c.maxSize
    ensures Kept(Step(c, s, op).store, e, newer + TouchedBy(s, op) - {e.key})
  {
    assert newer - {e.key} == newer;
    match op
    case Get(key, now) => GetKeeps(s, key, now, e, newer);
    case Set(_, _, _, _, _, _) =>
      assert newer + {op.key} - {e.key} == newer + {op.key};
      SetKeeps(c, s, op, e, newer);
    case Delete(key) => KeptWithout(s.store, e, newer, {key});
    case InvalidatePrefix(prefix) => KeptWithout(s.store, e, newer, PrefixKeys(s.store, prefix));
    case Clear =>
  }

  /** `op` sets `key`, or hits it. */
  predicate Touches<V>(s: State<V>, op: Op<V>, key: string) {
    key in TouchedBy(s, op)
  }

  /** A touched key becomes the most recent entry, unless its own set already cleaned it up. */
  lemma TouchedIsNewest<V>(c: Config, start: real, ops: seq<Op<V>>, op: Op<V>, key: string)
    requires c.maxSize >= 1
    requires Touches(Run(c, Fresh(start), ops), op, key)
    requires Timed(c, ops + [op], key).Some? && ReadsUpTo(op, Timed(c, ops + [op], key).value.1)
    ensures var (value, expireAt) := Timed(c, ops + [op], key).value;
            Kept(Step(c, Run(c, Fresh(start), ops), op).store, Entry(key, value, expireAt), {})
  {
    var s := Run(c, Fresh(start), ops);
    RunAgrees(c, start, ops);
    assert (ops + [op])[..|ops|] == ops;
    var (value, expireAt) := Timed(c, ops + [op], key).value;
    var e := Entry(key, value, expireAt);
    if op.Get? {
      assert Find(s.store, key).value == e;
      KeptAtEnd(Without(s.store, {key}), e, {});
    } else {
      var placed := Placed(c, s.store, e);
      PlacedAgrees(c, s.store, e);
      if key in Keys(s.store) {
        KeptAtEnd(Without(s.store, {key}), e, {});
      } else if s.store != [] && |s.store| >= c.maxSize {
        KeptAtEnd(s.store[1..], e, {});
      } else {
        KeptAtEnd(s.store, e, {});
      }
      assert Kept(placed, e, {});
      NotExpired(placed, e, op.latest);
      KeptWithout(placed, e, {}, ExpiredKeys(placed, op.latest));
    }
  }

  lemma {:induction false} RunSplit<V>(c: Config, s: State<V>, a: seq<Op<V>>, b: seq<Op<V>>)
    ensures Run(c, s, a + b) == Run(c, Run(c, s, a), b)
  {
    if b == [] {
      assert a + b == a;
    } else {
      RunSplit(c, s, a, b[..|b| - 1]);
      assert (a + b)[..|a + b| - 1] == a + b[..|b| - 1];
    }
  }

  lemma {:induction false} TimedUnchanged<V>(c: Config, a: seq<Op<V>>, b: seq<Op<V>>, key: string)
    requires forall i :: 0 <= i < |b| ==> !Writes(b[i], key) && !Removes(b[i], key)
    ensures Timed(c, a + b, key) == Timed(c, a, key)
  {
    if b == [] {
      assert a + b == a;
    } else {
      TimedUnchanged(c, a, b[..|b| - 1], key);
      assert (a + b)[..|a + b| - 1] == a + b[..|b| - 1];
    }
  }

  /** MAIN: LRU retention over every run.  After `before`, some operation sets or hits `key`;
      while `after` touches fewer than `maxSize` distinct other keys and neither rewrites nor
      removes `key`, a `get` at any time up to its expiry returns exactly the timed map's value. */
  lemma GetIsComplete<V>(c: Config, start: real, before: seq<Op<V>>, touch: Op<V>, after: seq<Op<V>>,
                         key: string, now: real)
    requires c.maxSize >= 1
    requires Touches(Run(c, Fresh(start), before), touch, key)
    requires forall i :: 0 <= i < |after| ==> !Writes(after[i], key) && !Removes(after[i], key)
    requires |Touched(c, Run(c, Fresh(start), before + [touch]), after, key)| < c.maxSize
    requires Timed(c, before + [touch], key).Some? && now <= Timed(c, before + [touch], key).value.1
    requires ReadsUpTo(touch, now) && forall i :: 0 <= i < |after| ==> ReadsUpTo(after[i], now)
    ensures var ops := before + [touch] + after;
            && Timed(c, ops, key).Some?
            && Answer(Run(c, Fresh(start), ops), key, now) == Some(Timed(c, ops, key).value.0)
  {
    var past := before + [touch];
    var (value, expireAt) := Timed(c, past, key).value;
    var e := Entry(key, value, expireAt);
    TouchedIsNewest(c, start, before, touch, key);
    assert past[..|past| - 1] == before;
    RunAgrees(c, start, past);
    AgreesFrom(c, Run(c, Fresh(start), past), past, after);
    assert Spares(after, key, expireAt);
    Retained(c, Run(c, Fresh(start), past), past, after, e);
    RunSplit(c, Fresh(start), past, after);
    TimedUnchanged(c, past, after, key);
    KeptFound(Run(c, Fresh(start), past + after).store, e,
              Touched(c, Run(c, Fresh(start), past), after, key));
  }

  // ---------------------------------------------------------------------------------------
  // Cleanup and counters
  // ---------------------------------------------------------------------------------------

  /** Cleanup never changes what a later `get` answers. */
  lemma CleanupIsInvisible<V>(s: State<V>, cleaned: real, key: string, now: real)
    requires Distinct(s.store) && cleaned <= now
    ensures Answer(s.(store := Without(s.store, ExpiredKeys(s.store, cleaned))), key, now) == Answer(s, key, now)
  {
    var keys := ExpiredKeys(s.store, cleaned);
    WithoutDistinct(s.store, keys);
    WithoutIsFilter(s.store, keys);
    var e := Find(s.store, key);
    if Hits(s, key, now) {
      NotExpired(s.store, e.value, cleaned);
      var i :| 0 <= i < |s.store| && s.store[i] == e.value;
      KeptWithout(s.store, e.value, Keys(s.store[i + 1..]), keys);
      KeptFound(Without(s.store, keys), e.value, Keys(s.store[i + 1..]));
    } else {
      var f := Find(Without(s.store, keys), key);
      if f.Some? {
        FoundIsUnique(s.store, f.value);
      }
    }
  }

  /** The periodic cleanup: a `set` more than 60 s after the last one leaves no entry that is expired, and
      otherwise removes nothing but the entry it overwrites or evicts. */
  lemma SetCleansUpIff<V>(c: Config, s: State<V>, op: Op<V>)
    requires op.Set? && Distinct(s.store) && !SetRaises(c, s)
    ensures var s' := AfterSet(c, s, op);
            if op.later > s.lastCleanup + 60.0
            then s'.lastCleanup == op.later && forall e :: e in s'.store ==> op.latest <= e.expireAt
            else s'.lastCleanup == s.lastCleanup && |s'.store| >= |s.store|
  {
    var e := Entry(op.key, op.value, Expiry(c, op));
    var placed := Placed(c, s.store, e);
    WithoutIsFilter(placed, ExpiredKeys(placed, op.latest));
    OverwritesOne(s.store, op.key);
  }

  lemma {:induction false} OverwritesOne<V>(store: seq<Entry<V>>, key: string)
    requires Distinct(store)
    ensures |Without(store, {key})| == |store| - (if key in Keys(store) then 1 else 0)
  {
    if store != [] {
      OverwritesOne(store[1..], key);
      KeysAreKeys(store[1..]);
    }
  }

  function Gets<V>(ops: seq<Op<V>>): nat {
    if ops == [] then 0 else Gets(ops[..|ops| - 1]) + (if ops[|ops| - 1].Get? then 1 else 0)
  }

  function Sets<V>(ops: seq<Op<V>>): nat {
    if ops == [] then 0 else Sets(ops[..|ops| - 1]) + (if ops[|ops| - 1].Set? then 1 else 0)
  }

  /** The gets that were answered. */
  function Answered<V>(c: Config, start: real, ops: seq<Op<V>>): nat {
    if ops == [] then 0
    else
      var before, op := ops[..|ops| - 1], ops[|ops| - 1];
      Answered(c, start, before)
      + (if op.Get? && Answer(Run(c, Fresh(start), before), op.key, op.now).Some? then 1 else 0)
  }

  /** The sets that pushed an entry out: those of a new key into a full store. */
  function PushedOut<V>(c: Config, start: real, ops: seq<Op<V>>): nat {
    if ops == [] then 0
    else
      var before, op := ops[..|ops| - 1], ops[|ops| - 1];
      var store := Run(c, Fresh(start), before).store;
      PushedOut(c, start, before) + (if op.Set? && op.key !in Keys(store) && |store| >= c.maxSize then 1 else 0)
  }

  /** Over every run of a cache with room: hits count the answered gets and misses the others, sets and
      evictions count what they say. */
  lemma {:induction false} CountersAddUp<V>(c: Config, start: real, ops: seq<Op<V>>)
    ensures var stats := Run(c, Fresh(start), ops).stats;
            && stats.hits == Answered(c, start, ops)
            && stats.hits + stats.misses == Gets(ops)
            && (c.maxSize >= 1 ==> stats.sets == Sets(ops) && stats.evictions == PushedOut(c, start, ops))
  {
    if ops != [] {
      CountersAddUp(c, start, ops[..|ops| - 1]);
    }
  }
}
