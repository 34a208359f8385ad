/** The sliding-window limiter of backend/core/rate_limiter.py: the in-memory path with its
periodic cleanup, proved to decide as the specification over the full admission history.
A refused request is answered with status 429 (section 4 of RFC 6585) and a `Retry-After`
in seconds (section 10.2.3 of RFC 9110). */
module RateLimiter {

  datatype Limit = Limit(maxRequests: nat, window: nat)

  ghost predicate Positive(l: Limit) { l.maxRequests >= 1 && l.window >= 1 }

  /** The table of limits per path prefix; the first matching prefix wins. */
  const RATE_LIMITS: seq<(string, Limit)> := [
    ("/api/auth/sync", Limit(10, 60)),
    ("/api/auth/me", Limit(30, 60)),
    ("/api/auth/logout", Limit(10, 60)),
    ("/api/admin/auth", Limit(5, 60)),
    ("/api/admin/", Limit(180, 60)),
    ("/api/market/", Limit(600, 60)),
    ("/api/futures/", Limit(300, 60))
  ]

  const DEFAULT_RATE_LIMIT := Limit(120, 60)

  const CLEANUP_INTERVAL := 300.0

  function Match(path: string, table: seq<(string, Limit)>): (string, Limit) {
    if table == [] then ("default", DEFAULT_RATE_LIMIT)
    else if table[0].0 <= path then table[0]
    else Match(path, table[1..])
  }

  /** A bucket is a client and a matched prefix; the prefix fixes the limit. */
  datatype Bucket = Bucket(ip: string, prefix: string, limit: Limit)

  /** One request, as `dispatch` hands it to a backend. */
  datatype Request = Request(bucket: Bucket, now: real)

  function Route(ip: string, path: string): Bucket {
    var (prefix, limit) := Match(path, RATE_LIMITS);
    Bucket(ip, prefix, limit)
  }

  function LongestWindow(table: seq<(string, Limit)>): nat {
    if table == [] then 0
    else
      var rest := LongestWindow(table[1..]);
      if table[0].1.window > rest then table[0].1.window else rest
  }

  /** A bucket with a sensible limit that the cleanup does not cut short. */
  ghost predicate InUse(b: Bucket, maxWindow: nat) {
    Positive(b.limit) && b.limit.window <= maxWindow
  }

  /** No limit in use outlives what the cleanup keeps.  The default limit is not in the table the
      cleanup consults, so this rests on its window being no longer than the others. */
  lemma RoutedIsInUse(ip: string, path: string)
    ensures InUse(Route(ip, path), LongestWindow(RATE_LIMITS))
  {
    MatchIsListed(path, RATE_LIMITS);
    WindowIsListed(RATE_LIMITS);
    assert RATE_LIMITS[0].1.window == 60;
    forall i | 0 <= i < |RATE_LIMITS| ensures Positive(RATE_LIMITS[i].1) {
    }
  }

  /** MAIN: a bucket keeps the client and has the prefix and the limit of the first listed prefix of the
      path; only a path that has none falls back on 120 requests in 60 s. */
  lemma RouteIsFirstMatch(ip: string, path: string)
    ensures var b := Route(ip, path);
            && b.ip == ip
            && ((exists i :: FirstMatch(path, RATE_LIMITS, i) && b.prefix == RATE_LIMITS[i].0 && b.limit == RATE_LIMITS[i].1)
                || ((forall i :: 0 <= i < |RATE_LIMITS| ==> !(RATE_LIMITS[i].0 <= path))
                    && b.prefix == "default" && b.limit == Limit(120, 60)))
  {
    MatchIsFirst(path, RATE_LIMITS);
  }

  ghost predicate FirstMatch(path: string, table: seq<(string, Limit)>, i: int) {
    && 0 <= i < |table| && table[i].0 <= path
    && forall j :: 0 <= j < i ==> !(table[j].0 <= path)
  }

  lemma {:induction false} MatchIsFirst(path: string, table: seq<(string, Limit)>)
    ensures || (exists i :: FirstMatch(path, table, i) && Match(path, table) == table[i])
            || ((forall i :: 0 <= i < |table| ==> !(table[i].0 <= path)) && Match(path, table) == ("default", Limit(120, 60)))
  {
    if table != [] && !(table[0].0 <= path) {
      var rest := table[1..];
      MatchIsFirst(path, rest);
      assert forall i :: 1 <= i < |table| ==> table[i] == rest[i - 1];
      if i :| FirstMatch(path, rest, i) && Match(path, rest) == rest[i] {
        assert FirstMatch(path, table, i + 1);
      }
    } else if table != [] {
      assert FirstMatch(path, table, 0);
    }
  }

  /** Administrator logins are held to 5 requests in 60 s, not to the 180 of the other admin paths. */
  lemma AdminLoginsAreStrict(ip: string, rest: string)
    ensures Route(ip, "/api/admin/auth" + rest) == Bucket(ip, "/api/admin/auth", Limit(5, 60))
    ensures Route(ip, "/api/admin/users") == Bucket(ip, "/api/admin/", Limit(180, 60))
  {
    var path := "/api/admin/auth" + rest;
    assert path[6] == 'd' && "/api/admin/auth" <= path;
    assert forall i :: 0 <= i < 3 ==> RATE_LIMITS[i].0[6] == 'u';
    assert FirstMatch(path, RATE_LIMITS, 3);
    RouteIsFirstMatch(ip, path);
    assert "/api/admin/users"[6] == 'd' && "/api/admin/users"[11] == 'u' && RATE_LIMITS[3].0[11] == 'a';
    assert "/api/admin/" <= "/api/admin/users";
    assert FirstMatch("/api/admin/users", RATE_LIMITS, 4);
    RouteIsFirstMatch(ip, "/api/admin/users");
  }

  lemma {:induction false} MatchIsListed(path: string, table: seq<(string, Limit)>)
    ensures Match(path, table) == ("default", DEFAULT_RATE_LIMIT) ||
            exists i :: 0 <= i < |table| && Match(path, table) == table[i]
  {
    if table != [] && !(table[0].0 <= path) {
      MatchIsListed(path, table[1..]);
      assert forall i :: 0 <= i < |table[1..]| ==> table[1..][i] == table[i + 1];
    }
  }

  lemma {:induction false} WindowIsListed(table: seq<(string, Limit)>)
    ensures forall i :: 0 <= i < |table| ==> table[i].1.window <= LongestWindow(table)
  {
    if table != [] {
      WindowIsListed(table[1..]);
      assert forall i :: 1 <= i < |table| ==> table[i] == table[1..][i - 1];
    }
  }

  // ---------------------------------------------------------------------------------------
  // One bucket
  // ---------------------------------------------------------------------------------------

  datatype Verdict = Admitted(count: nat) | Refused(retryAfter: int, count: nat)

  /** Python's `int` on a float: truncation toward zero. */
  function Truncate(x: real): int { if x >= 0.0 then x.Floor else -((-x).Floor) }

  function RetryAfter(window: nat, now: real, oldest: real): int {
    Truncate(window as real - (now - oldest)) + 1
  }

  /** The timestamps still inside the window. */
  function Live(times: seq<real>, now: real, window: nat): seq<real> {
    if times == [] then []
    else
      var rest := Live(times[..|times| - 1], now, window);
      if now - times[|times| - 1] < window as real then rest + [times[|times| - 1]] else rest
  }

  function Decide(l: Limit, live: seq<real>, now: real): Verdict {
    if |live| >= l.maxRequests && live != [] then Refused(RetryAfter(l.window, now, live[0]), |live|)
    else Admitted(|live| + 1)
  }

  /** The bucket after a request: pruned, and extended if the request is admitted. */
  function Recorded(l: Limit, live: seq<real>, now: real): seq<real> {
    if Decide(l, live, now).Admitted? then live + [now] else live
  }

  // ---------------------------------------------------------------------------------------
  // All buckets, with the periodic cleanup
  // ---------------------------------------------------------------------------------------

  datatype State = State(requests: map<Bucket, seq<real>>, lastCleanup: real)

  function TimesOf(s: State, b: Bucket): seq<real> {
    if b in s.requests then s.requests[b] else []
  }

  predicate Idle(times: seq<real>, now: real, maxWindow: nat) {
    times == [] || now - times[|times| - 1] > maxWindow as real
  }

  function CleanedUp(requests: map<Bucket, seq<real>>, now: real, maxWindow: nat): map<Bucket, seq<real>> {
    map b | b in requests && !Idle(requests[b], now, maxWindow) :: requests[b]
  }

  function VerdictOn(s: State, r: Request): Verdict {
    var l := r.bucket.limit;
    Decide(l, Live(TimesOf(s, r.bucket), r.now, l.window), r.now)
  }

  /** The state after a request, with `maxWindow` the longest window the cleanup knows. */
  function After(maxWindow: nat, s: State, r: Request): State {
    var l := r.bucket.limit;
    var live := Live(TimesOf(s, r.bucket), r.now, l.window);
    var requests := s.requests[r.bucket := Recorded(l, live, r.now)];
    if Decide(l, live, r.now).Admitted? && r.now - s.lastCleanup > CLEANUP_INTERVAL
    then State(CleanedUp(requests, r.now, maxWindow), r.now)
    else State(requests, s.lastCleanup)
  }

  function Run(maxWindow: nat, start: real, reqs: seq<Request>): State {
    if reqs == [] then State(map[], start)
    else After(maxWindow, Run(maxWindow, start, reqs[..|reqs| - 1]), reqs[|reqs| - 1])
  }

  class RateLimitMiddleware {
    var requests: map<Bucket, seq<real>>
    var lastCleanup: real
    const maxWindow: nat

    ghost function Contents(): State
      reads this
    {
      State(requests, lastCleanup)
    }

    constructor (now: real)
      ensures Contents() == State(map[], now) && maxWindow == LongestWindow(RATE_LIMITS)
    {
      requests, lastCleanup, maxWindow := map[], now, LongestWindow(RATE_LIMITS);
    }

    /** `_check_memory`; with a limit of zero the source would index an empty list. */
    method CheckMemory(r: Request) returns (v: Verdict)
      requires r.bucket.limit.maxRequests >= 1
      modifies this
      ensures v == old(VerdictOn(Contents(), r))
      ensures Contents() == old(After(maxWindow, Contents(), r))
    {
      var l := r.bucket.limit;
      var recorded := if r.bucket in requests then requests[r.bucket] else [];
      var times := Prune(recorded, r.now, l.window);
      requests := requests[r.bucket := times];
      if |times| >= l.maxRequests {
        return Refused(RetryAfter(l.window, r.now, times[0]), |times|);
      }
      requests := requests[r.bucket := times + [r.now]];
      v := Admitted(|times| + 1);
      if r.now - lastCleanup > CLEANUP_INTERVAL {
        Cleanup(r.now);
        lastCleanup := r.now;
      }
    }

    /** `_cleanup`: collects the idle buckets, then deletes them one by one. */
    method Cleanup(now: real)
      modifies this`requests
      ensures requests == old(CleanedUp(requests, now, maxWindow))
    {
      var expired := set b | b in requests && Idle(requests[b], now, maxWindow);
      ghost var all := expired;
      while expired != {}
        invariant expired <= all
        invariant requests == old(requests) - (all - expired)
      {
        var b :| b in expired;
        requests := requests - {b};
        expired := expired - {b};
      }
    }
  }

  /** The pruning comprehension. */
  method Prune(times: seq<real>, now: real, window: nat) returns (live: seq<real>)
    ensures live == Live(times, now, window)
  {
    live := [];
    for i := 0 to |times|
      invariant live == Live(times[..i], now, window)
    {
      assert times[..i + 1][..i] == times[..i];
      if now - times[i] < window as real {
        live := live + [times[i]];
      }
    }
    assert times[..|times|] == times;
  }

  // ---------------------------------------------------------------------------------------
  // Pruning
  // ---------------------------------------------------------------------------------------

  ghost predicate Ascending(times: seq<real>) {
    forall i, j :: 0 <= i < j < |times| ==> times[i] <= times[j]
  }

  ghost predicate UpTo(times: seq<real>, t: real) {
    forall i :: 0 <= i < |times| ==> times[i] <= t
  }

  lemma {:induction false} LiveIsFilter(times: seq<real>, now: real, window: nat)
    ensures |Live(times, now, window)| <= |times|
    ensures forall i :: 0 <= i < |Live(times, now, window)| ==>
                        Live(times, now, window)[i] in times && now - Live(times, now, window)[i] < window as real
  {
    if times != [] {
      LiveIsFilter(times[..|times| - 1], now, window);
    }
  }

  lemma {:induction false} LiveAscending(times: seq<real>, now: real, window: nat, t: real)
    requires Ascending(times) && UpTo(times, t)
    ensures Ascending(Live(times, now, window)) && UpTo(Live(times, now, window), t)
  {
    if times != [] {
      var last := times[|times| - 1];
      LiveAscending(times[..|times| - 1], now, window, last);
      LiveAscending(times[..|times| - 1], now, window, t);
    }
  }

  /** Pruning early loses nothing that a later pruning would keep. */
  lemma {:induction false} LiveTwice(times: seq<real>, now: real, later: real, window: nat)
    requires now <= later
    ensures Live(Live(times, now, window), later, window) == Live(times, later, window)
  {
    if times != [] {
      var rest := Live(times[..|times| - 1], now, window);
      LiveTwice(times[..|times| - 1], now, later, window);
      assert (rest + [times[|times| - 1]])[..|rest|] == rest;
    }
  }

  lemma LiveAppend(times: seq<real>, t: real, now: real, window: nat)
    ensures Live(times + [t], now, window) ==
            if now - t < window as real then Live(times, now, window) + [t] else Live(times, now, window)
  {
  }

  lemma IdleIsDead(times: seq<real>, now: real, maxWindow: nat, window: nat)
    requires Ascending(times) && Idle(times, now, maxWindow) && window <= maxWindow
    ensures Live(times, now, window) == []
  {
  }

  // ---------------------------------------------------------------------------------------
  // Specification: the full admission history
  // ---------------------------------------------------------------------------------------

  /** The times of one bucket in a list of requests, such as a history that never forgets. */
  function TimesIn(history: seq<Request>, b: Bucket): seq<real> {
    if history == [] then []
    else
      var rest := TimesIn(history[..|history| - 1], b);
      var r := history[|history| - 1];
      if r.bucket == b then rest + [r.now] else rest
  }

  /** Fewer than `max_requests` admissions of the bucket in the last `window` seconds. */
  predicate SpecAdmits(history: seq<Request>, r: Request) {
    |Live(TimesIn(history, r.bucket), r.now, r.bucket.limit.window)| < r.bucket.limit.maxRequests
  }

  /** The admissions the specification makes over a run of requests. */
  function History(reqs: seq<Request>): seq<Request> {
    if reqs == [] then []
    else
      var before, r := History(reqs[..|reqs| - 1]), reqs[|reqs| - 1];
      if SpecAdmits(before, r) then before + [r] else before
  }

  ghost predicate Clocked(start: real, reqs: seq<Request>, now: real) {
    && start <= now
    && (forall i :: 0 <= i < |reqs| ==> start <= reqs[i].now <= now)
    && forall i, j :: 0 <= i < j < |reqs| ==> reqs[i].now <= reqs[j].now
  }

  /** The list of a bucket against its full admission history. */
  ghost predicate Tracks(l: Limit, times: seq<real>, history: seq<real>, now: real) {
    && Ascending(times) && UpTo(times, now) && |times| <= l.maxRequests
    && Live(times, now, l.window) == Live(history, now, l.window)
  }

  lemma TracksLater(l: Limit, times: seq<real>, history: seq<real>, now: real, later: real)
    requires Tracks(l, times, history, now) && now <= later
    ensures Tracks(l, times, history, later)
  {
    LiveTwice(times, now, later, l.window);
    LiveTwice(history, now, later, l.window);
  }

  /** One request: the list and the history decide alike and stay in step. */
  lemma RecordedTracks(l: Limit, times: seq<real>, history: seq<real>, now: real)
    requires Positive(l) && Tracks(l, times, history, now)
    ensures var live := Live(times, now, l.window);
            var admitted := |Live(history, now, l.window)| < l.maxRequests;
            && Decide(l, live, now).Admitted? == admitted
            && Tracks(l, Recorded(l, live, now), if admitted then history + [now] else history, now)
  {
    var live := Live(times, now, l.window);
    LiveAscending(times, now, l.window, now);
    LiveIsFilter(times, now, l.window);
    LiveTwice(times, now, now, l.window);
    LiveAppend(history, now, now, l.window);
    LiveAppend(live, now, now, l.window);
  }

  ghost predicate Faithful(s: State, history: seq<Request>, now: real, b: Bucket) {
    Tracks(b.limit, TimesOf(s, b), TimesIn(history, b), now)
  }

  lemma TimesInAppend(history: seq<Request>, r: Request, b: Bucket)
    ensures TimesIn(history + [r], b) ==
            if r.bucket == b then TimesIn(history, b) + [r.now] else TimesIn(history, b)
  {
  }

  /** Cleanup drops only buckets in which nothing is live, so it changes no later decision. */
  lemma CleanupIsFaithful(maxWindow: nat, s: State, history: seq<Request>, now: real, b: Bucket)
    requires InUse(b, maxWindow) && Faithful(s, history, now, b)
    ensures Faithful(s.(requests := CleanedUp(s.requests, now, maxWindow)), history, now, b)
  {
    var times := TimesOf(s, b);
    if b in s.requests && Idle(times, now, maxWindow) {
      IdleIsDead(times, now, maxWindow, b.limit.window);
    }
  }

  lemma StepIsFaithful(maxWindow: nat, s: State, history: seq<Request>, r: Request, b: Bucket)
    requires InUse(b, maxWindow) && Faithful(s, history, r.now, b)
    ensures r.bucket == b ==> VerdictOn(s, r).Admitted? == SpecAdmits(history, r)
    ensures Faithful(After(maxWindow, s, r), if SpecAdmits(history, r) then history + [r] else history, r.now, b)
  {
    var l := r.bucket.limit;
    var live := Live(TimesOf(s, r.bucket), r.now, l.window);
    var t := s.(requests := s.requests[r.bucket := Recorded(l, live, r.now)]);
    var history' := if SpecAdmits(history, r) then history + [r] else history;
    TimesInAppend(history, r, b);
    if r.bucket == b {
      RecordedTracks(l, TimesOf(s, b), TimesIn(history, b), r.now);
      assert TimesOf(t, b) == Recorded(l, live, r.now);
    } else {
      assert TimesOf(t, b) == TimesOf(s, b) && TimesIn(history', b) == TimesIn(history, b);
    }
    CleanupIsFaithful(maxWindow, t, history', r.now, b);
    assert After(maxWindow, s, r).requests == t.requests ||
           After(maxWindow, s, r).requests == CleanedUp(t.requests, r.now, maxWindow);
    FaithfulByRequests(After(maxWindow, s, r), t, history', r.now, b);
    FaithfulByRequests(After(maxWindow, s, r), t.(requests := CleanedUp(t.requests, r.now, maxWindow)), history', r.now, b);
  }

  lemma FaithfulByRequests(s: State, t: State, history: seq<Request>, now: real, b: Bucket)
    ensures s.requests == t.requests ==> Faithful(s, history, now, b) == Faithful(t, history, now, b)
  {
  }

  lemma {:induction false} RunIsFaithful(maxWindow: nat, start: real, reqs: seq<Request>, now: real, b: Bucket)
    requires InUse(b, maxWindow) && Clocked(start, reqs, now)
    ensures Faithful(Run(maxWindow, start, reqs), History(reqs), now, b)
  {
    if reqs != [] {
      var before, r := reqs[..|reqs| - 1], reqs[|reqs| - 1];
      RunIsFaithful(maxWindow, start, before, r.now, b);
      StepIsFaithful(maxWindow, Run(maxWindow, start, before), History(before), r, b);
      TracksLater(b.limit, TimesOf(Run(maxWindow, start, reqs), b), TimesIn(History(reqs), b), r.now, now);
    }
  }

  /** MAIN: after any run over any mix of clients and paths, cleanups included, a request is
      admitted if and only if its bucket has fewer than `max_requests` admissions in the last
      `window` seconds of the full history. */
  lemma MemoryDecidesAsSpecified(maxWindow: nat, start: real, reqs: seq<Request>, r: Request)
    requires Clocked(start, reqs, r.now) && InUse(r.bucket, maxWindow)
    ensures VerdictOn(Run(maxWindow, start, reqs), r).Admitted? <==> SpecAdmits(History(reqs), r)
  {
    RunIsFaithful(maxWindow, start, reqs, r.now, r.bucket);
    StepIsFaithful(maxWindow, Run(maxWindow, start, reqs), History(reqs), r, r.bucket);
  }

  /** The requests the middleware itself admits over a run. */
  function Admissions(maxWindow: nat, start: real, reqs: seq<Request>): seq<Request> {
    if reqs == [] then []
    else
      var before, r := reqs[..|reqs| - 1], reqs[|reqs| - 1];
      Admissions(maxWindow, start, before)
      + (if VerdictOn(Run(maxWindow, start, before), r).Admitted? then [r] else [])
  }

  ghost predicate AllInUse(reqs: seq<Request>, maxWindow: nat) {
    forall i :: 0 <= i < |reqs| ==> InUse(reqs[i].bucket, maxWindow)
  }

  lemma {:induction false} AdmissionsAreHistory(maxWindow: nat, start: real, reqs: seq<Request>, now: real)
    requires Clocked(start, reqs, now) && AllInUse(reqs, maxWindow)
    ensures Admissions(maxWindow, start, reqs) == History(reqs)
  {
    if reqs != [] {
      var before, r := reqs[..|reqs| - 1], reqs[|reqs| - 1];
      AdmissionsAreHistory(maxWindow, start, before, r.now);
      MemoryDecidesAsSpecified(maxWindow, start, before, r);
      assert History(before) + [] == History(before);
    }
  }

  /** The condition on the windows is needed: a full bucket whose window is longer than what the
      cleanup consults can be refused before the cleanup and admitted after it. */
  lemma CleanupForgetsLongerWindows(l: Limit, times: seq<real>, now: real, maxWindow: nat)
    requires Positive(l) && Ascending(times) && |times| == l.maxRequests
    requires now - times[0] < l.window as real && now - times[|times| - 1] > maxWindow as real
    ensures l.window > maxWindow && Idle(times, now, maxWindow)
    ensures Decide(l, Live(times, now, l.window), now).Refused? && Decide(l, [], now).Admitted?
  {
    AllStillLive(times, now, l.window);
  }

  /** MAIN: the verdict by counting, after any run: the request is admitted if and only if fewer than
      `max_requests` of the admissions of its own bucket are less than `window` seconds old, and the verdict
      reports their number, with the request itself if it is admitted. */
  lemma VerdictCountsTheWindow(maxWindow: nat, start: real, reqs: seq<Request>, r: Request)
    requires Clocked(start, reqs, r.now) && InUse(r.bucket, maxWindow)
    ensures var recent := Recent(History(reqs), r, |History(reqs)|);
            var v := VerdictOn(Run(maxWindow, start, reqs), r);
            if |recent| < r.bucket.limit.maxRequests then v == Admitted(|recent| + 1) else v.Refused? && v.count == |recent|
  {
    RunIsFaithful(maxWindow, start, reqs, r.now, r.bucket);
    RecentIsLive(History(reqs), r, |History(reqs)|);
    assert History(reqs)[..|History(reqs)|] == History(reqs);
  }

  /** Which of the first `n` admissions are of the bucket of `r` and less than its window old. */
  ghost function Recent(history: seq<Request>, r: Request, n: nat): set<int>
    requires n <= |history|
  {
    set i | 0 <= i < n && history[i].bucket == r.bucket && r.now - history[i].now < r.bucket.limit.window as real
  }

  lemma {:induction false} RecentIsLive(history: seq<Request>, r: Request, n: nat)
    requires n <= |history|
    ensures |Recent(history, r, n)| == |Live(TimesIn(history[..n], r.bucket), r.now, r.bucket.limit.window)|
  {
    if n > 0 {
      RecentIsLive(history, r, n - 1);
      RecentNext(history, r, n - 1);
      var h := history[n - 1];
      assert history[..n] == history[..n - 1] + [h];
      TimesInAppend(history[..n - 1], h, r.bucket);
      LiveAppend(TimesIn(history[..n - 1], r.bucket), h.now, r.now, r.bucket.limit.window);
    } else {
      assert Recent(history, r, 0) == {} && history[..0] == [];
    }
  }

  lemma RecentNext(history: seq<Request>, r: Request, n: nat)
    requires n < |history|
    ensures |Recent(history, r, n + 1)| == |Recent(history, r, n)|
            + (if history[n].bucket == r.bucket && r.now - history[n].now < r.bucket.limit.window as real then 1 else 0)
  {
    var more := history[n].bucket == r.bucket && r.now - history[n].now < r.bucket.limit.window as real;
    assert Recent(history, r, n + 1) == Recent(history, r, n) + (if more then {n as int} else {});
    assert n as int !in Recent(history, r, n);
  }

  /** What the cleanup forgets: exactly the buckets whose latest request is more than the longest window
      old, or that hold none. */
  lemma CleanupForgetsIdle(requests: map<Bucket, seq<real>>, now: real, maxWindow: nat, b: Bucket)
    requires b in requests && Ascending(requests[b])
    ensures b in CleanedUp(requests, now, maxWindow) <==>
            exists i :: 0 <= i < |requests[b]| && now - requests[b][i] <= maxWindow as real
    ensures b in CleanedUp(requests, now, maxWindow) ==> CleanedUp(requests, now, maxWindow)[b] == requests[b]
  {
    var times := requests[b];
    if times != [] {
      assert forall i :: 0 <= i < |times| ==> times[i] <= times[|times| - 1];
    }
  }

  /** It runs after an admitted request that comes more than 300 s after the last cleanup, and only then. */
  lemma CleanupIsPeriodic(maxWindow: nat, s: State, r: Request)
    ensures var s' := After(maxWindow, s, r);
            if VerdictOn(s, r).Admitted? && r.now > s.lastCleanup + 300.0
            then s'.lastCleanup == r.now && forall b :: b in s'.requests ==> !Idle(s'.requests[b], r.now, maxWindow)
            else s'.lastCleanup == s.lastCleanup && s'.requests.Keys == s.requests.Keys + {r.bucket}
  {
  }

  // ---------------------------------------------------------------------------------------
  // No window admits more than the limit
  // ---------------------------------------------------------------------------------------

  /** How many times fall in the `window` seconds from `from` on. */
  function InWindow(times: seq<real>, from: real, window: nat): nat {
    if times == [] then 0
    else
      InWindow(times[..|times| - 1], from, window) +
      (if from <= times[|times| - 1] < from + window as real then 1 else 0)
  }

  /** A log in which every entry found fewer than the limit in its own past window. */
  ghost predicate Limited(l: Limit, log: seq<real>) {
    && Ascending(log)
    && forall i :: 0 <= i < |log| ==> |Live(log[..i], log[i], l.window)| < l.maxRequests
  }

  lemma LimitedAppend(l: Limit, log: seq<real>, now: real)
    requires Limited(l, log) && UpTo(log, now) && |Live(log, now, l.window)| < l.maxRequests
    ensures Limited(l, log + [now])
  {
    var next := log + [now];
    forall i | 0 <= i < |next| ensures |Live(next[..i], next[i], l.window)| < l.maxRequests {
      if i < |log| {
        assert next[..i] == log[..i];
      } else {
        assert next[..i] == log;
      }
    }
  }

  lemma {:induction false} WindowWithinLive(times: seq<real>, from: real, now: real, window: nat)
    requires now < from + window as real
    ensures InWindow(times, from, window) <= |Live(times, now, window)|
  {
    if times != [] {
      WindowWithinLive(times[..|times| - 1], from, now, window);
    }
  }

  lemma {:induction false} LimitedInEveryWindow(l: Limit, log: seq<real>, from: real)
    requires Limited(l, log)
    ensures InWindow(log, from, l.window) <= l.maxRequests
  {
    if log != [] {
      var before, last := log[..|log| - 1], log[|log| - 1];
      assert forall i :: 0 <= i < |before| ==> before[..i] == log[..i];
      LimitedInEveryWindow(l, before, from);
      if from <= last < from + l.window as real {
        WindowWithinLive(before, from, last, l.window);
      }
    }
  }

  lemma {:induction false} HistoryIsLimited(reqs: seq<Request>, start: real, now: real, b: Bucket)
    requires Clocked(start, reqs, now)
    ensures Limited(b.limit, TimesIn(History(reqs), b)) && UpTo(TimesIn(History(reqs), b), now)
  {
    if reqs != [] {
      var before, r := reqs[..|reqs| - 1], reqs[|reqs| - 1];
      HistoryIsLimited(before, start, r.now, b);
      TimesInAppend(History(before), r, b);
      if SpecAdmits(History(before), r) && r.bucket == b {
        LimitedAppend(b.limit, TimesIn(History(before), b), r.now);
      }
    }
  }

  /** MAIN: over any run, no interval of `window` seconds contains more than `max_requests`
      admissions of any bucket. */
  lemma NoWindowExceedsLimit(maxWindow: nat, start: real, reqs: seq<Request>, now: real, b: Bucket, from: real)
    requires Clocked(start, reqs, now) && AllInUse(reqs, maxWindow)
    ensures InWindow(TimesIn(Admissions(maxWindow, start, reqs), b), from, b.limit.window) <= b.limit.maxRequests
  {
    AdmissionsAreHistory(maxWindow, start, reqs, now);
    HistoryIsLimited(reqs, start, now, b);
    LimitedInEveryWindow(b.limit, TimesIn(History(reqs), b), from);
  }

  // ---------------------------------------------------------------------------------------
  // Retry-After
  // ---------------------------------------------------------------------------------------

  lemma {:induction false} AllStillLive(times: seq<real>, now: real, window: nat)
    requires Ascending(times) && times != [] && now - times[0] < window as real
    ensures Live(times, now, window) == times
  {
    var before, last := times[..|times| - 1], times[|times| - 1];
    assert times == before + [last];
    if before != [] {
      AllStillLive(before, now, window);
    }
  }

  lemma {:induction false} OldestGone(times: seq<real>, now: real, window: nat)
    requires times != [] && now - times[0] >= window as real
    ensures |Live(times, now, window)| < |times|
  {
    if |times| > 1 {
      OldestGone(times[..|times| - 1], now, window);
    }
  }

  /** MAIN: a refusal after any run.  `retry_after` lies in 1..window+1; whoever comes back that
      many seconds later or more, with no request in between, is admitted; whoever comes back
      less than `retry_after - 1` seconds later is refused again. */
  lemma RetryAfterIsTight(maxWindow: nat, start: real, reqs: seq<Request>, r: Request, later: real)
    requires Clocked(start, reqs, r.now) && later >= r.now && InUse(r.bucket, maxWindow)
    requires VerdictOn(Run(maxWindow, start, reqs), r).Refused?
    ensures var retryAfter := VerdictOn(Run(maxWindow, start, reqs), r).retryAfter;
            var again := VerdictOn(After(maxWindow, Run(maxWindow, start, reqs), r), r.(now := later));
            && 1 <= retryAfter <= r.bucket.limit.window + 1
            && (later >= r.now + retryAfter as real ==> again.Admitted?)
            && (later < r.now + (retryAfter - 1) as real ==> again.Refused?)
  {
    var l, s := r.bucket.limit, Run(maxWindow, start, reqs);
    RunIsFaithful(maxWindow, start, reqs, r.now, r.bucket);
    var times := TimesOf(s, r.bucket);
    var live := Live(times, r.now, l.window);
    LiveAscending(times, r.now, l.window, r.now);
    LiveIsFilter(times, r.now, l.window);
    assert TimesOf(After(maxWindow, s, r), r.bucket) == live;
    if later - live[0] < l.window as real {
      AllStillLive(live, later, l.window);
    } else {
      OldestGone(live, later, l.window);
    }
  }
}
