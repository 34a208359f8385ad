/** The Redis path of backend/core/rate_limiter.py and the failover between the two paths, for
one bucket.  The sorted set stores each request under its own timestamp, so it is a set of
timestamps; the check and the add are two separate round trips. */
module RedisLimiter {
  import opened RateLimiter

  /** The sorted set and the time at which Redis drops the whole key. */
  datatype ZSet = ZSet(members: set<real>, expireAt: real)

  /** The key lives a little longer than the window. */
  const TTL_MARGIN := 10.0

  function Present(z: ZSet, now: real): set<real> {
    if now >= z.expireAt then {} else z.members
  }

  /** `zremrangebyscore(key, 0, now - window)`. */
  function Pruned(members: set<real>, now: real, window: nat): set<real> {
    set x | x in members && !(x <= now - window as real)
  }

  function Checked(z: ZSet, now: real, window: nat): set<real> {
    Pruned(Present(z, now), now, window)
  }

  predicate Passes(l: Limit, z: ZSet, now: real) {
    |Checked(z, now, l.window)| < l.maxRequests
  }

  /** The set after a request whose two round trips run back to back. */
  function RedisAfter(l: Limit, z: ZSet, now: real): ZSet {
    var members := Checked(z, now, l.window);
    if Passes(l, z, now) then ZSet(members + {now}, now + l.window as real + TTL_MARGIN)
    else ZSet(members, z.expireAt)
  }

  /** The key outlives the window of the latest admission by 10 s; a refused request does not prolong it. */
  lemma KeyOutlivesWindow(l: Limit, z: ZSet, now: real)
    ensures RedisAfter(l, z, now).expireAt ==
            if |Checked(z, now, l.window)| < l.maxRequests then now + l.window as real + 10.0 else z.expireAt
  {
  }

  ghost predicate IsOldest(x: real, members: set<real>) {
    x in members && forall y :: y in members ==> x <= y
  }

  lemma {:induction false} OldestExists(members: set<real>)
    requires members != {}
    ensures exists x :: IsOldest(x, members)
  {
    assert exists x: real :: x in members by {
      if forall x: real :: x !in members { assert false; }
    }
    var x: real :| x in members;
    OldestWith(members - {x}, x);
    assert members - {x} + {x} == members;
  }

  lemma {:induction false} OldestWith(rest: set<real>, x: real)
    ensures exists y :: IsOldest(y, rest + {x})
    decreases rest
  {
    if y: real :| y in rest {
      var least := if x <= y then x else y;
      OldestWith(rest - {y}, least);
      var z :| IsOldest(z, rest - {y} + {least});
      assert z <= least;
      forall w: real | w in rest + {x} ensures z <= w {
        assert w == x || w == y || w in rest - {y} + {least};
      }
      assert IsOldest(z, rest + {x});
    } else {
      assert IsOldest(x, rest + {x});
    }
  }

  /** `zrange(key, 0, 0)`: the entry with the lowest score. */
  ghost function Oldest(members: set<real>): real
    requires members != {}
  {
    OldestExists(members);
    var x :| IsOldest(x, members);
    x
  }

  ghost function RedisVerdict(l: Limit, z: ZSet, now: real): Verdict {
    var members := Checked(z, now, l.window);
    if Passes(l, z, now) then Admitted(|members| + 1)
    else Refused(if members == {} then l.window else RetryAfter(l.window, now, Oldest(members)), |members|)
  }

  // ---------------------------------------------------------------------------------------
  // The sorted set against the log of everything added to it
  // ---------------------------------------------------------------------------------------

  function AsSet(times: seq<real>): set<real> { set x | x in times }

  lemma {:induction false} LiveMembers(times: seq<real>, now: real, window: nat)
    ensures forall x :: x in Live(times, now, window) <==> x in times && now - x < window as real
  {
    if times != [] {
      var before, last := times[..|times| - 1], times[|times| - 1];
      LiveMembers(before, now, window);
      assert times == before + [last];
    }
  }

  /** The live part of the set is the set of live times of the log. */
  ghost predicate Mirrors(l: Limit, z: ZSet, log: seq<real>, now: real) {
    && UpTo(log, now)
    && Pruned(z.members, now, l.window) == AsSet(Live(log, now, l.window))
    && forall x :: x in z.members ==> x + l.window as real + TTL_MARGIN <= z.expireAt
  }

  /** Pruning, now or earlier, and the key's own expiry all leave the live part of the log. */
  lemma CheckedIsLive(l: Limit, z: ZSet, log: seq<real>, earlier: real, now: real)
    requires Mirrors(l, z, log, earlier) && earlier <= now
    ensures Checked(z, now, l.window) == AsSet(Live(log, now, l.window))
    ensures Mirrors(l, z, log, now)
    ensures Mirrors(l, ZSet(Checked(z, now, l.window), z.expireAt), log, now)
  {
    LiveMembers(log, earlier, l.window);
    LiveMembers(log, now, l.window);
    forall x ensures x in Pruned(z.members, now, l.window) <==> x in Live(log, now, l.window) {
      if x in Pruned(z.members, now, l.window) {
        assert x in Pruned(z.members, earlier, l.window);
        assert x in AsSet(Live(log, earlier, l.window));
      }
      if x in Live(log, now, l.window) {
        assert x in Live(log, earlier, l.window);
        assert x in AsSet(Live(log, earlier, l.window));
      }
    }
    assert Pruned(z.members, now, l.window) == AsSet(Live(log, now, l.window));
    if now >= z.expireAt {
      assert Pruned(z.members, now, l.window) == {};
    }
    assert Checked(z, now, l.window) == Pruned(z.members, now, l.window);
    assert Pruned(Checked(z, now, l.window), now, l.window) == Checked(z, now, l.window);
  }

  lemma AsSetAppend(times: seq<real>, now: real)
    ensures AsSet(times + [now]) == AsSet(times) + {now}
  {
  }

  lemma PrunedFresh(members: set<real>, now: real, window: nat)
    requires window >= 1 && forall x :: x in members ==> now - x < window as real
    ensures Pruned(members + {now}, now, window) == members + {now}
  {
  }

  /** Adding the current time to a freshly pruned set mirrors appending it to the log. */
  lemma AddMirrors(l: Limit, members: set<real>, log: seq<real>, now: real)
    requires Positive(l) && UpTo(log, now)
    requires members == AsSet(Live(log, now, l.window))
    ensures Mirrors(l, ZSet(members + {now}, now + l.window as real + TTL_MARGIN), log + [now], now)
  {
    LiveAppend(log, now, now, l.window);
    LiveMembers(log, now, l.window);
    AsSetAppend(Live(log, now, l.window), now);
    forall x | x in members ensures x <= now && now - x < l.window as real {
      assert x in log;
    }
    PrunedFresh(members, now, l.window);
  }

  /** Fewer than the limit of distinct times of the log are live. */
  ghost predicate Room(l: Limit, log: seq<real>, now: real) {
    |AsSet(Live(log, now, l.window))| < l.maxRequests
  }

  lemma RedisAddMirrors(l: Limit, z: ZSet, log: seq<real>, earlier: real, now: real)
    requires Positive(l) && Mirrors(l, z, log, earlier) && earlier <= now
    ensures Passes(l, z, now) <==> Room(l, log, now)
    ensures Mirrors(l, RedisAfter(l, z, now), if Passes(l, z, now) then log + [now] else log, now)
  {
    CheckedIsLive(l, z, log, earlier, now);
    if Passes(l, z, now) {
      AddMirrors(l, Checked(z, now, l.window), log, now);
    }
  }

  // ---------------------------------------------------------------------------------------
  // Sequential requests, with or without repeated timestamps
  // ---------------------------------------------------------------------------------------

  function RedisRun(l: Limit, times: seq<real>): ZSet {
    if times == [] then ZSet({}, 0.0) else RedisAfter(l, RedisRun(l, times[..|times| - 1]), times[|times| - 1])
  }

  /** The specification of the Redis path: a request is admitted if fewer than the limit of distinct
      admission times are live. */
  ghost function DistinctLog(l: Limit, times: seq<real>): seq<real> {
    if times == [] then []
    else
      var before, now := DistinctLog(l, times[..|times| - 1]), times[|times| - 1];
      if Room(l, before, now) then before + [now] else before
  }

  lemma {:induction false} RedisFollowsLog(l: Limit, times: seq<real>, now: real)
    requires Positive(l) && Ascending(times) && UpTo(times, now)
    ensures Mirrors(l, RedisRun(l, times), DistinctLog(l, times), now)
    ensures Ascending(DistinctLog(l, times)) && UpTo(DistinctLog(l, times), now)
  {
    if times != [] {
      var before, last := times[..|times| - 1], times[|times| - 1];
      RedisFollowsLog(l, before, last);
      RedisAddMirrors(l, RedisRun(l, before), DistinctLog(l, before), last, last);
      CheckedIsLive(l, RedisRun(l, times), DistinctLog(l, times), last, now);
    }
  }

  lemma AscendingEnd(times: seq<real>, now: real)
    requires Ascending(times + [now])
    ensures Ascending(times) && UpTo(times, now)
  {
    assert forall i :: 0 <= i < |times| ==> times[i] == (times + [now])[i];
    assert (times + [now])[|times|] == now;
  }

  /** MAIN: on every run of requests in time order, repeated timestamps included, the Redis path admits
      if and only if fewer than `max_requests` distinct admission times are live; it reports their
      number, and a refusal's `retry_after` counts from the oldest. */
  lemma RedisCountsDistinctTimes(l: Limit, times: seq<real>, now: real)
    requires Positive(l) && Ascending(times + [now])
    ensures var live := Live(DistinctLog(l, times), now, l.window);
            RedisVerdict(l, RedisRun(l, times), now) ==
            if |AsSet(live)| < l.maxRequests then Admitted(|AsSet(live)| + 1)
            else assert live != []; Refused(RetryAfter(l.window, now, live[0]), |AsSet(live)|)
  {
    AscendingEnd(times, now);
    RedisFollowsLog(l, times, now);
    var log := DistinctLog(l, times);
    CheckedIsLive(l, RedisRun(l, times), log, now, now);
    LiveAscending(log, now, l.window, now);
    if Live(log, now, l.window) != [] {
      OldestIsFirst(Live(log, now, l.window));
    }
  }

  lemma OldestIsFirst(live: seq<real>)
    requires Ascending(live) && live != []
    ensures AsSet(live) != {} && Oldest(AsSet(live)) == live[0]
  {
    assert live[0] in AsSet(live);
    OldestExists(AsSet(live));
    assert IsOldest(Oldest(AsSet(live)), AsSet(live));
  }

  // ---------------------------------------------------------------------------------------
  // Against the memory path
  // ---------------------------------------------------------------------------------------

  /** What the memory path admits over the same run: it counts every live admission. */
  function Log(l: Limit, times: seq<real>): seq<real> {
    if times == [] then []
    else
      var before, now := Log(l, times[..|times| - 1]), times[|times| - 1];
      if |Live(before, now, l.window)| < l.maxRequests then before + [now] else before
  }

  lemma {:induction false} HistoryPerBucket(reqs: seq<Request>, b: Bucket)
    ensures TimesIn(History(reqs), b) == Log(b.limit, TimesIn(reqs, b))
  {
    if reqs != [] {
      var before, r := reqs[..|reqs| - 1], reqs[|reqs| - 1];
      HistoryPerBucket(before, b);
      TimesInAppend(History(before), r, b);
      if r.bucket == b {
        LogAppend(b.limit, TimesIn(before, b), r.now);
      }
    }
  }

  lemma LogAppend(l: Limit, times: seq<real>, now: real)
    ensures Log(l, times + [now]) ==
            if |Live(Log(l, times), now, l.window)| < l.maxRequests then Log(l, times) + [now] else Log(l, times)
  {
    assert (times + [now])[..|times|] == times;
  }

  lemma {:induction false} TimesAscend(start: real, reqs: seq<Request>, now: real, b: Bucket)
    requires Clocked(start, reqs, now)
    ensures Ascending(TimesIn(reqs, b)) && UpTo(TimesIn(reqs, b), now)
  {
    if reqs != [] {
      var before, r := reqs[..|reqs| - 1], reqs[|reqs| - 1];
      TimesAscend(start, before, r.now, b);
    }
  }

  /** The memory path of the middleware, in any mix of buckets and with its cleanups, seen from one
      bucket. */
  lemma MemoryFollowsLog(maxWindow: nat, start: real, reqs: seq<Request>, r: Request)
    requires Clocked(start, reqs, r.now) && InUse(r.bucket, maxWindow)
    ensures var l := r.bucket.limit;
            var live := Live(Log(l, TimesIn(reqs, r.bucket)), r.now, l.window);
            VerdictOn(Run(maxWindow, start, reqs), r) == Decide(l, live, r.now) && |live| <= l.maxRequests
  {
    RunIsFaithful(maxWindow, start, reqs, r.now, r.bucket);
    HistoryPerBucket(reqs, r.bucket);
    LiveIsFilter(TimesOf(Run(maxWindow, start, reqs), r.bucket), r.now, r.bucket.limit.window);
  }

  ghost function RedisOn(reqs: seq<Request>, r: Request): Verdict {
    RedisVerdict(r.bucket.limit, RedisRun(r.bucket.limit, TimesIn(reqs, r.bucket)), r.now)
  }

  ghost predicate Increasing(times: seq<real>) {
    forall i, j :: 0 <= i < j < |times| ==> times[i] < times[j]
  }

  lemma {:induction false} IncreasingCount(times: seq<real>)
    requires Increasing(times)
    ensures |AsSet(times)| == |times|
  {
    if times != [] {
      var before, last := times[..|times| - 1], times[|times| - 1];
      IncreasingCount(before);
      assert AsSet(times) == AsSet(before) + {last};
      assert last !in before;
    }
  }

  lemma {:induction false} LiveIncreasing(times: seq<real>, now: real, window: nat)
    requires Increasing(times)
    ensures Increasing(Live(times, now, window))
  {
    if times != [] {
      var before, last := times[..|times| - 1], times[|times| - 1];
      LiveIncreasing(before, now, window);
      LiveMembers(before, now, window);
      var rest := Live(before, now, window);
      forall i | 0 <= i < |rest| ensures rest[i] < last { assert rest[i] in rest; }
    }
  }

  /** With distinct timestamps counting times is counting admissions. */
  lemma {:induction false} DistinctLogIsLog(l: Limit, times: seq<real>)
    requires Increasing(times)
    ensures DistinctLog(l, times) == Log(l, times) && Increasing(Log(l, times))
  {
    if times != [] {
      var before, now := times[..|times| - 1], times[|times| - 1];
      DistinctLogIsLog(l, before);
      var log := Log(l, before);
      LogBelow(l, before, now);
      DistinctRoom(l, log, now);
    }
  }

  lemma {:induction false} LogBelow(l: Limit, times: seq<real>, bound: real)
    requires Before(times, bound)
    ensures Before(Log(l, times), bound)
  {
    if times != [] {
      LogBelow(l, times[..|times| - 1], bound);
    }
  }

  lemma DistinctRoom(l: Limit, log: seq<real>, now: real)
    requires Increasing(log) && Before(log, now)
    ensures Room(l, log, now) <==> |Live(log, now, l.window)| < l.maxRequests
    ensures Increasing(log + [now])
  {
    LiveIncreasing(log, now, l.window);
    IncreasingCount(Live(log, now, l.window));
  }

  /** MAIN: in any mixed traffic in which the requests of the bucket have distinct timestamps, the Redis
      path gives the verdict of the memory path, with the same `retry_after` and the same count. */
  lemma RedisAgreesWithMemory(maxWindow: nat, start: real, reqs: seq<Request>, r: Request)
    requires Clocked(start, reqs, r.now) && InUse(r.bucket, maxWindow)
    requires Increasing(TimesIn(reqs, r.bucket) + [r.now])
    ensures RedisOn(reqs, r) == VerdictOn(Run(maxWindow, start, reqs), r)
  {
    var l, times := r.bucket.limit, TimesIn(reqs, r.bucket);
    assert Increasing(times) by {
      assert forall i :: 0 <= i < |times| ==> times[i] == (times + [r.now])[i];
    }
    MemoryFollowsLog(maxWindow, start, reqs, r);
    RedisCountsDistinctTimes(l, times, r.now);
    DistinctLogIsLog(l, times);
    LiveIncreasing(Log(l, times), r.now, l.window);
    IncreasingCount(Live(Log(l, times), r.now, l.window));
  }

  /** At a limit of one the two counts are zero together. */
  lemma {:induction false} LogsAtLimitOne(l: Limit, times: seq<real>)
    requires l.maxRequests == 1
    ensures DistinctLog(l, times) == Log(l, times)
  {
    if times != [] {
      var before, now := times[..|times| - 1], times[|times| - 1];
      LogsAtLimitOne(l, before);
      NoneOrSome(Live(Log(l, before), now, l.window));
    }
  }

  lemma NoneOrSome(times: seq<real>)
    ensures |AsSet(times)| == 0 <==> times == []
    ensures |times| == 1 ==> |AsSet(times)| == 1
  {
    if times != [] {
      assert times[0] in AsSet(times);
      if |times| == 1 {
        assert AsSet(times) == {times[0]};
      }
    }
  }

  /** At a limit of one the paths agree, whatever timestamps repeat. */
  lemma AgreeAtLimitOne(maxWindow: nat, start: real, reqs: seq<Request>, r: Request)
    requires Clocked(start, reqs, r.now) && InUse(r.bucket, maxWindow) && r.bucket.limit.maxRequests == 1
    ensures RedisOn(reqs, r) == VerdictOn(Run(maxWindow, start, reqs), r)
  {
    var l, times := r.bucket.limit, TimesIn(reqs, r.bucket);
    MemoryFollowsLog(maxWindow, start, reqs, r);
    TimesAscend(start, reqs, r.now, r.bucket);
    RedisCountsDistinctTimes(l, times, r.now);
    LogsAtLimitOne(l, times);
    NoneOrSome(Live(Log(l, times), r.now, l.window));
  }

  /** Requests that read the same clock value share one entry, so with a limit of two or more any
      number of them is admitted. */
  lemma {:induction false} SameInstantIsNeverRefused(l: Limit, now: real, n: nat)
    requires l.maxRequests >= 2
    ensures RedisRun(l, seq(n, _ => now)).members <= {now}
    ensures RedisVerdict(l, RedisRun(l, seq(n, _ => now)), now).Admitted?
  {
    if n > 0 {
      SameInstantIsNeverRefused(l, now, n - 1);
      assert seq(n, _ => now)[..n - 1] == seq(n - 1, _ => now);
    }
    AtMostOne(Checked(RedisRun(l, seq(n, _ => now)), now, l.window), now);
  }

  lemma AtMostOne(s: set<real>, x: real)
    requires s <= {x}
    ensures |s| <= 1
  {
    assert s == {} || s == {x};
  }

  /** The memory path admits the limit's worth of requests at one instant, all live. */
  lemma {:induction false} SameInstantInMemory(l: Limit, now: real, n: nat)
    requires Positive(l) && n <= l.maxRequests
    ensures Log(l, seq(n, _ => now)) == seq(n, _ => now)
    ensures Live(seq(n, _ => now), now, l.window) == seq(n, _ => now)
  {
    if n > 0 {
      SameInstantInMemory(l, now, n - 1);
      assert seq(n, _ => now)[..n - 1] == seq(n - 1, _ => now);
      assert seq(n - 1, _ => now) + [now] == seq(n, _ => now);
    }
  }

  lemma {:induction false} TimesOfBurst(b: Bucket, now: real, n: nat)
    ensures TimesIn(seq(n, _ => Request(b, now)), b) == seq(n, _ => now)
  {
    if n > 0 {
      TimesOfBurst(b, now, n - 1);
      assert seq(n, _ => Request(b, now))[..n - 1] == seq(n - 1, _ => Request(b, now));
    }
  }

  /** With a limit of two or more, one request beyond the limit at one instant tells the paths apart. */
  lemma DifferBeyondLimitOne(maxWindow: nat, b: Bucket, now: real)
    requires InUse(b, maxWindow) && b.limit.maxRequests >= 2
    ensures var reqs, r := seq(b.limit.maxRequests, _ => Request(b, now)), Request(b, now);
            && Clocked(now, reqs, now)
            && VerdictOn(Run(maxWindow, now, reqs), r).Refused? && RedisOn(reqs, r).Admitted?
  {
    var n, r := b.limit.maxRequests, Request(b, now);
    var reqs := seq(n, _ => Request(b, now));
    TimesOfBurst(b, now, n);
    SameInstantInMemory(b.limit, now, n);
    SameInstantIsNeverRefused(b.limit, now, n);
    MemoryFollowsLog(maxWindow, now, reqs, r);
  }

  /** On every run, repeated timestamps included, the two paths admit the same requests. */
  ghost predicate AdmitAlike(b: Bucket, maxWindow: nat) {
    forall start, reqs, now :: Clocked(start, reqs, now) ==>
      VerdictOn(Run(maxWindow, start, reqs), Request(b, now)).Admitted? == RedisOn(reqs, Request(b, now)).Admitted?
  }

  /** MAIN: the two paths admit the same requests on every run if and only if the limit is one. */
  lemma AdmitAlikeIff(b: Bucket, maxWindow: nat)
    requires InUse(b, maxWindow)
    ensures AdmitAlike(b, maxWindow) <==> b.limit.maxRequests == 1
  {
    if b.limit.maxRequests == 1 {
      forall start, reqs, now | Clocked(start, reqs, now)
        ensures VerdictOn(Run(maxWindow, start, reqs), Request(b, now)).Admitted? ==
                RedisOn(reqs, Request(b, now)).Admitted?
      {
        AgreeAtLimitOne(maxWindow, start, reqs, Request(b, now));
      }
    } else {
      DifferBeyondLimitOne(maxWindow, b, 0.0);
    }
  }

  // ---------------------------------------------------------------------------------------
  // Overlapping requests: the check and the add are separate round trips
  // ---------------------------------------------------------------------------------------

  /** `waiting` holds the requests that passed their check and have not added themselves yet, `added`
      the times of all that did. */
  datatype Race = Race(members: set<real>, waiting: seq<real>, added: set<real>)

  /** A check, the add of the i-th waiting request, its failure, or the expiry of the key. */
  datatype Event = Check(now: real) | Add(i: nat) | GiveUp(i: nat) | Expire(now: real)

  /** At most `k` requests are between check and add. */
  predicate CanHappen(k: nat, s: Race, e: Event) {
    match e
    case Check(now) => |s.waiting| < k
    case Add(i) => i < |s.waiting|
    case GiveUp(i) => i < |s.waiting|
    case Expire(now) => true
  }

  function Drop(times: seq<real>, i: nat): seq<real> {
    if i < |times| then times[..i] + times[i + 1..] else times
  }

  function RaceAfter(l: Limit, s: Race, e: Event): Race {
    match e
    case Check(now) =>
      var members := Pruned(s.members, now, l.window);
      s.(members := members, waiting := if |members| < l.maxRequests then s.waiting + [now] else s.waiting)
    case Add(i) =>
      if i < |s.waiting|
      then Race(s.members + {s.waiting[i]}, Drop(s.waiting, i), s.added + {s.waiting[i]}) else s
    case GiveUp(i) => s.(waiting := Drop(s.waiting, i))
    case Expire(now) => s.(members := {})
  }

  function RaceRun(l: Limit, events: seq<Event>): Race {
    if events == [] then Race({}, [], {})
    else RaceAfter(l, RaceRun(l, events[..|events| - 1]), events[|events| - 1])
  }

  ghost predicate Feasible(l: Limit, k: nat, events: seq<Event>) {
    forall i :: 0 <= i < |events| ==> CanHappen(k, RaceRun(l, events[..i]), events[i])
  }

  /** A check whose add follows at once is a request of the sequential path. */
  lemma BackToBackIsSequential(l: Limit, s: Race, now: real, expireAt: real)
    requires Positive(l) && now < expireAt
    ensures var checked, z := RaceAfter(l, s, Check(now)), ZSet(s.members, expireAt);
            if Passes(l, z, now)
            then checked.waiting == s.waiting + [now]
                 && RaceAfter(l, checked, Add(|s.waiting|)) ==
                    Race(RedisAfter(l, z, now).members, s.waiting, s.added + {now})
            else checked == Race(RedisAfter(l, z, now).members, s.waiting, s.added)
  {
    if Passes(l, ZSet(s.members, expireAt), now) {
      var checked := RaceAfter(l, s, Check(now));
      assert Drop(checked.waiting, |s.waiting|) == s.waiting;
    }
  }

  lemma FeasiblePrefix(l: Limit, k: nat, events: seq<Event>)
    requires Feasible(l, k, events) && events != []
    ensures var before := events[..|events| - 1];
            Feasible(l, k, before) && CanHappen(k, RaceRun(l, before), events[|events| - 1])
  {
    var before := events[..|events| - 1];
    assert forall i :: 0 <= i < |before| ==> before[..i] == events[..i];
  }

  lemma PrunedShrinks(members: set<real>, now: real, window: nat)
    ensures |Pruned(members, now, window)| <= |members|
  {
    var gone := members - Pruned(members, now, window);
    assert members == Pruned(members, now, window) + gone;
  }

  /** MAIN: under any interleaving with at most `k` requests between check and add, the sorted
      set never holds more than `max_requests + k - 1` entries. */
  lemma {:induction false} RaceIsBounded(l: Limit, k: nat, events: seq<Event>)
    requires Positive(l) && k >= 1 && Feasible(l, k, events)
    ensures var s := RaceRun(l, events); |s.members| + |s.waiting| <= l.maxRequests + k - 1
  {
    if events != [] {
      var before, e := events[..|events| - 1], events[|events| - 1];
      FeasiblePrefix(l, k, events);
      RaceIsBounded(l, k, before);
      var s := RaceRun(l, before);
      match e
      case Check(now) => PrunedShrinks(s.members, now, l.window);
      case Add(i) => assert |s.members + {s.waiting[i]}| <= |s.members| + 1;
      case GiveUp(_) =>
      case Expire(_) =>
    }
  }

  // --- What a window sees ---

  predicate Ticks(e: Event) { e.Check? || e.Expire? }

  /** Checks and expiries happen in time order, and the key expires only when everything in it has left
      the window. */
  ghost predicate Timely(l: Limit, events: seq<Event>) {
    && (forall i, j :: 0 <= i < j < |events| && Ticks(events[i]) && Ticks(events[j]) ==>
          events[i].now <= events[j].now)
    && forall i :: 0 <= i < |events| && events[i].Expire? ==>
         forall x :: x in RaceRun(l, events[..i]).members ==> x <= events[i].now - l.window as real
  }

  lemma TimelyPrefix(l: Limit, events: seq<Event>)
    requires Timely(l, events) && events != []
    ensures var before, e := events[..|events| - 1], events[|events| - 1];
            && Timely(l, before)
            && (e.Expire? ==> forall x :: x in RaceRun(l, before).members ==> x <= e.now - l.window as real)
            && (Ticks(e) ==> ClockUpTo(before, e.now))
  {
    var before := events[..|events| - 1];
    assert forall i :: 0 <= i < |before| ==> before[..i] == events[..i];
  }

  ghost predicate ClockUpTo(events: seq<Event>, now: real) {
    forall i :: 0 <= i < |events| && Ticks(events[i]) ==> events[i].now <= now
  }

  /** The times in the `window` seconds from `from` on. */
  function Within(times: set<real>, from: real, window: nat): set<real> {
    set x | x in times && from <= x < from + window as real
  }

  /** While the clock is inside the window, nothing added inside it has left the set. */
  lemma {:induction false} AddedAreMembers(l: Limit, events: seq<Event>, from: real, now: real)
    requires Timely(l, events) && ClockUpTo(events, now) && now < from + l.window as real
    ensures Within(RaceRun(l, events).added, from, l.window) <= RaceRun(l, events).members
  {
    if events != [] {
      TimelyPrefix(l, events);
      assert ClockUpTo(events[..|events| - 1], now);
      AddedAreMembers(l, events[..|events| - 1], from, now);
      var e := events[|events| - 1];
      assert Ticks(e) ==> e.now <= now;
    }
  }

  lemma {:induction false} InWindowConcat(xs: seq<real>, ys: seq<real>, from: real, window: nat)
    ensures InWindow(xs + ys, from, window) == InWindow(xs, from, window) + InWindow(ys, from, window)
  {
    if ys == [] {
      assert xs + ys == xs;
    } else {
      var n := |ys| - 1;
      assert (xs + ys)[..|xs + ys| - 1] == xs + ys[..n];
      InWindowConcat(xs, ys[..n], from, window);
    }
  }

  lemma InWindowDrop(times: seq<real>, i: nat, from: real, window: nat)
    requires i < |times|
    ensures InWindow(Drop(times, i), from, window) ==
            InWindow(times, from, window) - (if from <= times[i] < from + window as real then 1 else 0)
  {
    var a, x, b := times[..i], times[i], times[i + 1..];
    InWindowConcat(a, b, from, window);
    InWindowConcat(a, [x] + b, from, window);
    InWindowConcat([x], b, from, window);
    InWindowOne(x, from, window);
    assert a + ([x] + b) == times;
  }

  lemma InWindowOne(x: real, from: real, window: nat)
    ensures InWindow([x], from, window) == if from <= x < from + window as real then 1 else 0
  {
    assert [x][..0] == [] && InWindow([], from, window) == 0;
  }

  lemma {:induction false} InWindowAtMost(times: seq<real>, from: real, window: nat)
    ensures InWindow(times, from, window) <= |times|
  {
    if times != [] {
      InWindowAtMost(times[..|times| - 1], from, window);
    }
  }

  lemma SubsetSize(a: set<real>, b: set<real>)
    requires a <= b
    ensures |a| <= |b|
  {
    assert b == a + (b - a);
  }

  lemma {:induction false} InWindowAppend(times: seq<real>, t: real, from: real, window: nat)
    ensures InWindow(times + [t], from, window) ==
            InWindow(times, from, window) + (if from <= t < from + window as real then 1 else 0)
  {
  }

  /** What a window has seen admitted, and what it may still see. */
  function Exposure(s: Race, from: real, window: nat): nat {
    |Within(s.added, from, window)| + InWindow(s.waiting, from, window)
  }

  lemma WithinAdd(times: set<real>, x: real, from: real, window: nat)
    ensures |Within(times + {x}, from, window)| <=
            |Within(times, from, window)| + (if from <= x < from + window as real then 1 else 0)
  {
    if from <= x < from + window as real {
      assert Within(times + {x}, from, window) == Within(times, from, window) + {x};
    } else {
      assert Within(times + {x}, from, window) == Within(times, from, window);
    }
  }

  lemma CheckExposes(l: Limit, k: nat, s: Race, now: real, from: real)
    requires |s.waiting| < k && Exposure(s, from, l.window) <= l.maxRequests + k - 1
    requires now < from + l.window as real ==> Within(s.added, from, l.window) <= s.members
    ensures Exposure(RaceAfter(l, s, Check(now)), from, l.window) <= l.maxRequests + k - 1
  {
    InWindowAppend(s.waiting, now, from, l.window);
    InWindowAtMost(s.waiting, from, l.window);
    if from <= now < from + l.window as real {
      SubsetSize(Within(s.added, from, l.window), Pruned(s.members, now, l.window));
    }
  }

  /** MAIN: under any interleaving with at most `k` requests between check and add, checks in time order,
      no interval of `window` seconds contains more than `max_requests + k - 1` admission times. */
  lemma {:induction false} RaceWindowIsBounded(l: Limit, k: nat, events: seq<Event>, from: real)
    requires Positive(l) && k >= 1 && Feasible(l, k, events) && Timely(l, events)
    ensures Exposure(RaceRun(l, events), from, l.window) <= l.maxRequests + k - 1
    ensures |Within(RaceRun(l, events).added, from, l.window)| <= l.maxRequests + k - 1
  {
    if events != [] {
      var before, e := events[..|events| - 1], events[|events| - 1];
      FeasiblePrefix(l, k, events);
      TimelyPrefix(l, events);
      RaceWindowIsBounded(l, k, before, from);
      var s := RaceRun(l, before);
      match e
      case Check(now) =>
        if now < from + l.window as real {
          AddedAreMembers(l, before, from, now);
        }
        CheckExposes(l, k, s, now, from);
      case Add(i) =>
        InWindowDrop(s.waiting, i, from, l.window);
        WithinAdd(s.added, s.waiting[i], from, l.window);
      case GiveUp(i) => InWindowDrop(s.waiting, i, from, l.window);
      case Expire(_) =>
    }
  }

  // ---------------------------------------------------------------------------------------
  // Failover
  // ---------------------------------------------------------------------------------------

  /** How `dispatch` served a request.  When a Redis call raises, the memory path decides; the
      pruning and the add may or may not have reached the server by then. */
  datatype Path = ViaMemory | ViaRedis | RedisRaises(pruned: bool, added: bool)

  /** Both backends, the log each of them was given, and what the client saw admitted. */
  datatype Trail = Trail(times: seq<real>, z: ZSet, memoryLog: seq<real>, redisLog: seq<real>, admitted: seq<real>)

  function OnMemory(l: Limit, t: Trail, now: real): Trail {
    var live := Live(t.times, now, l.window);
    if Decide(l, live, now).Admitted?
    then t.(times := live + [now], memoryLog := t.memoryLog + [now], admitted := t.admitted + [now])
    else t.(times := live)
  }

  function OnRedis(l: Limit, t: Trail, now: real): Trail {
    t.(z := RedisAfter(l, t.z, now), redisLog := if Passes(l, t.z, now) then t.redisLog + [now] else t.redisLog)
  }

  function Serve(l: Limit, t: Trail, route: Path, now: real): Trail {
    match route
    case ViaMemory => OnMemory(l, t, now)
    case ViaRedis =>
      OnRedis(l, t, now).(admitted := if Passes(l, t.z, now) then t.admitted + [now] else t.admitted)
    case RedisRaises(pruned, added) =>
      if added && Passes(l, t.z, now) then OnMemory(l, OnRedis(l, t, now), now)
      else if pruned then OnMemory(l, t.(z := ZSet(Checked(t.z, now, l.window), t.z.expireAt)), now)
      else OnMemory(l, t, now)
  }

  function ServeAll(l: Limit, reqs: seq<(Path, real)>): Trail {
    if reqs == [] then Trail([], ZSet({}, 0.0), [], [], [])
    else
      var last := reqs[|reqs| - 1];
      Serve(l, ServeAll(l, reqs[..|reqs| - 1]), last.0, last.1)
  }

  function ServedTimes(reqs: seq<(Path, real)>): seq<real> {
    if reqs == [] then [] else ServedTimes(reqs[..|reqs| - 1]) + [reqs[|reqs| - 1].1]
  }

  lemma ServedTimesLast(reqs: seq<(Path, real)>)
    requires reqs != []
    ensures ServedTimes(reqs) != [] && ServedTimes(reqs)[..|ServedTimes(reqs)| - 1] == ServedTimes(reqs[..|reqs| - 1])
    ensures ServedTimes(reqs)[|ServedTimes(reqs)| - 1] == reqs[|reqs| - 1].1
  {
  }

  /** As long as every request goes to memory, the dispatcher admits what the memory path admits. */
  lemma {:induction false} MemoryAlone(l: Limit, reqs: seq<(Path, real)>, now: real)
    requires Positive(l) && InTurn(reqs, now) && forall i :: 0 <= i < |reqs| ==> reqs[i].0 == ViaMemory
    ensures ServeAll(l, reqs).admitted == Log(l, ServedTimes(reqs)) == ServeAll(l, reqs).memoryLog
  {
    if reqs != [] {
      var before, last := reqs[..|reqs| - 1], reqs[|reqs| - 1];
      MemoryAlone(l, before, last.1);
      ServeAllSteps(l, before, last.1);
      ServedTimesLast(reqs);
      var t := ServeAll(l, before);
      RecordedTracks(l, t.times, t.memoryLog, last.1);
    }
  }

  /** As long as every request goes to Redis, it admits what the Redis path admits. */
  lemma {:induction false} RedisAlone(l: Limit, reqs: seq<(Path, real)>, now: real)
    requires Positive(l) && InTurn(reqs, now) && forall i :: 0 <= i < |reqs| ==> reqs[i].0 == ViaRedis
    ensures ServeAll(l, reqs).admitted == DistinctLog(l, ServedTimes(reqs)) == ServeAll(l, reqs).redisLog
  {
    if reqs != [] {
      var before, last := reqs[..|reqs| - 1], reqs[|reqs| - 1];
      RedisAlone(l, before, last.1);
      ServeAllSteps(l, before, last.1);
      ServedTimesLast(reqs);
      var t := ServeAll(l, before);
      RedisAddMirrors(l, t.z, t.redisLog, last.1, last.1);
    }
  }

  ghost predicate MemoryLimited(l: Limit, t: Trail, now: real) {
    Tracks(l, t.times, t.memoryLog, now) && Limited(l, t.memoryLog) && UpTo(t.memoryLog, now)
  }

  /** Every entry found fewer than the limit of distinct times in its own past window. */
  ghost predicate DistinctLimited(l: Limit, log: seq<real>) {
    && Ascending(log)
    && forall i :: 0 <= i < |log| ==> Room(l, log[..i], log[i])
  }

  lemma DistinctLimitedAppend(l: Limit, log: seq<real>, now: real)
    requires DistinctLimited(l, log) && UpTo(log, now) && Room(l, log, now)
    ensures DistinctLimited(l, log + [now])
  {
    var next := log + [now];
    forall i | 0 <= i < |next| ensures Room(l, next[..i], next[i]) {
      if i < |log| {
        assert next[..i] == log[..i];
      } else {
        assert next[..i] == log;
      }
    }
  }

  lemma {:induction false} DistinctInEveryWindow(l: Limit, log: seq<real>, from: real)
    requires DistinctLimited(l, log)
    ensures |Within(AsSet(log), from, l.window)| <= l.maxRequests
  {
    if log != [] {
      var before, last := log[..|log| - 1], log[|log| - 1];
      assert forall i :: 0 <= i < |before| ==> before[..i] == log[..i];
      DistinctInEveryWindow(l, before, from);
      WithinLast(log, from, l.window);
      if from <= last < from + l.window as real {
        LiveMembers(before, last, l.window);
        SubsetSize(Within(AsSet(before), from, l.window), AsSet(Live(before, last, l.window)));
      }
    } else {
      assert Within(AsSet(log), from, l.window) == {};
    }
  }

  lemma WithinLast(log: seq<real>, from: real, window: nat)
    requires log != []
    ensures var before, last := log[..|log| - 1], log[|log| - 1];
            Within(AsSet(log), from, window) ==
            Within(AsSet(before), from, window) + (if from <= last < from + window as real then {last} else {})
  {
    var before, last := log[..|log| - 1], log[|log| - 1];
    assert before + [last] == log;
    AsSetAppend(before, last);
  }

  lemma {:induction false} DistinctAtMostCount(log: seq<real>, from: real, window: nat)
    ensures |Within(AsSet(log), from, window)| <= InWindow(log, from, window)
  {
    if log != [] {
      DistinctAtMostCount(log[..|log| - 1], from, window);
      WithinLast(log, from, window);
    } else {
      assert Within(AsSet(log), from, window) == {};
    }
  }

  lemma {:induction false} IncreasingInWindow(log: seq<real>, from: real, window: nat)
    requires Increasing(log)
    ensures |Within(AsSet(log), from, window)| == InWindow(log, from, window)
  {
    if log != [] {
      IncreasingInWindow(log[..|log| - 1], from, window);
      WithinLast(log, from, window);
      assert log[|log| - 1] !in Within(AsSet(log[..|log| - 1]), from, window);
    } else {
      assert Within(AsSet(log), from, window) == {};
    }
  }

  ghost predicate RedisLimited(l: Limit, t: Trail, now: real) {
    Mirrors(l, t.z, t.redisLog, now) && DistinctLimited(l, t.redisLog)
  }

  /** Each backend holds to the limit on its own log, and all admissions are logged. */
  ghost predicate EachLimited(l: Limit, t: Trail, now: real) {
    && MemoryLimited(l, t, now) && RedisLimited(l, t, now)
    && AsSet(t.admitted) <= AsSet(t.memoryLog) + AsSet(t.redisLog)
  }

  lemma MemoryStaysLimited(l: Limit, t: Trail, now: real)
    requires Positive(l) && MemoryLimited(l, t, now)
    ensures MemoryLimited(l, OnMemory(l, t, now), now)
  {
    RecordedTracks(l, t.times, t.memoryLog, now);
    if Decide(l, Live(t.times, now, l.window), now).Admitted? {
      LimitedAppend(l, t.memoryLog, now);
    }
  }

  lemma OnMemoryStep(l: Limit, t: Trail, now: real)
    requires Positive(l) && EachLimited(l, t, now)
    ensures EachLimited(l, OnMemory(l, t, now), now)
  {
    MemoryStaysLimited(l, t, now);
    AsSetAppend(t.memoryLog, now);
    AsSetAppend(t.admitted, now);
  }

  lemma OnRedisStep(l: Limit, t: Trail, now: real)
    requires Positive(l) && EachLimited(l, t, now)
    ensures EachLimited(l, OnRedis(l, t, now), now)
    ensures Passes(l, t.z, now) ==> now in AsSet(OnRedis(l, t, now).redisLog)
  {
    RedisAddMirrors(l, t.z, t.redisLog, now, now);
    AsSetAppend(t.redisLog, now);
    if Passes(l, t.z, now) {
      DistinctLimitedAppend(l, t.redisLog, now);
    }
  }

  lemma EachLimitedLater(l: Limit, t: Trail, now: real, later: real)
    requires EachLimited(l, t, now) && now <= later
    ensures EachLimited(l, t, later)
  {
    TracksLater(l, t.times, t.memoryLog, now, later);
    CheckedIsLive(l, t.z, t.redisLog, now, later);
  }

  lemma ServeStep(l: Limit, t: Trail, route: Path, now: real)
    requires Positive(l) && EachLimited(l, t, now)
    ensures EachLimited(l, Serve(l, t, route, now), now)
  {
    match route
    case ViaMemory => OnMemoryStep(l, t, now);
    case ViaRedis =>
      OnRedisStep(l, t, now);
      AsSetAppend(t.admitted, now);
    case RedisRaises(pruned, added) =>
      if added && Passes(l, t.z, now) {
        OnRedisStep(l, t, now);
        OnMemoryStep(l, OnRedis(l, t, now), now);
      } else if pruned {
        CheckedIsLive(l, t.z, t.redisLog, now, now);
        OnMemoryStep(l, t.(z := ZSet(Checked(t.z, now, l.window), t.z.expireAt)), now);
      } else {
        OnMemoryStep(l, t, now);
      }
  }

  ghost predicate InTurn(reqs: seq<(Path, real)>, now: real) {
    && (forall i :: 0 <= i < |reqs| ==> reqs[i].1 <= now)
    && forall i, j :: 0 <= i < j < |reqs| ==> reqs[i].1 <= reqs[j].1
  }

  lemma {:induction false} ServeAllSteps(l: Limit, reqs: seq<(Path, real)>, now: real)
    requires Positive(l) && InTurn(reqs, now)
    ensures EachLimited(l, ServeAll(l, reqs), now)
  {
    if reqs != [] {
      var before, last := reqs[..|reqs| - 1], reqs[|reqs| - 1];
      ServeAllSteps(l, before, last.1);
      ServeStep(l, ServeAll(l, before), last.0, last.1);
      EachLimitedLater(l, ServeAll(l, reqs), last.1, now);
    }
  }

  lemma UnionSize(a: set<real>, b: set<real>)
    ensures |a + b| <= |a| + |b|
  {
    assert a + b == a + (b - a);
    SubsetSize(b - a, b);
  }

  /** MAIN: however requests switch between the backends, Redis errors and repeated timestamps included,
      no interval of `window` seconds contains more than twice the limit of admission times. */
  lemma FailoverTimesAtMostDouble(l: Limit, reqs: seq<(Path, real)>, now: real, from: real)
    requires Positive(l) && InTurn(reqs, now)
    ensures |Within(AsSet(ServeAll(l, reqs).admitted), from, l.window)| <= 2 * l.maxRequests
  {
    ServeAllSteps(l, reqs, now);
    var t := ServeAll(l, reqs);
    var memory, redis := Within(AsSet(t.memoryLog), from, l.window), Within(AsSet(t.redisLog), from, l.window);
    LimitedInEveryWindow(l, t.memoryLog, from);
    DistinctAtMostCount(t.memoryLog, from, l.window);
    DistinctInEveryWindow(l, t.redisLog, from);
    SubsetSize(Within(AsSet(t.admitted), from, l.window), memory + redis);
    UnionSize(memory, redis);
  }

  ghost predicate Before(times: seq<real>, now: real) {
    forall i :: 0 <= i < |times| ==> times[i] < now
  }

  lemma AdmittedStep(l: Limit, t: Trail, route: Path, now: real, later: real)
    requires Increasing(t.admitted) && Before(t.admitted, now) && now < later
    ensures var admitted := Serve(l, t, route, now).admitted; Increasing(admitted) && Before(admitted, later)
  {
    var admitted := Serve(l, t, route, now).admitted;
    assert admitted == t.admitted || admitted == t.admitted + [now];
  }

  lemma {:induction false} AdmittedIncreasing(l: Limit, reqs: seq<(Path, real)>, now: real)
    requires forall i :: 0 <= i < |reqs| ==> reqs[i].1 < now
    requires forall i, j :: 0 <= i < j < |reqs| ==> reqs[i].1 < reqs[j].1
    ensures Increasing(ServeAll(l, reqs).admitted) && Before(ServeAll(l, reqs).admitted, now)
  {
    if reqs != [] {
      var before, last := reqs[..|reqs| - 1], reqs[|reqs| - 1];
      AdmittedIncreasing(l, before, last.1);
      AdmittedStep(l, ServeAll(l, before), last.0, last.1, now);
    }
  }

  /** MAIN: with distinct timestamps, no interval of `window` seconds sees more than twice the limit
      admitted. */
  lemma FailoverAtMostDoubles(l: Limit, reqs: seq<(Path, real)>, now: real, from: real)
    requires Positive(l) && InTurn(reqs, now)
    requires forall i, j :: 0 <= i < j < |reqs| ==> reqs[i].1 < reqs[j].1
    ensures InWindow(ServeAll(l, reqs).admitted, from, l.window) <= 2 * l.maxRequests
  {
    FailoverTimesAtMostDouble(l, reqs, now, from);
    AdmittedIncreasing(l, reqs, now + 1.0);
    IncreasingInWindow(ServeAll(l, reqs).admitted, from, l.window);
  }
}
