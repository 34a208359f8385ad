/** Moving averages and MACD of backend/engines/indicators.py, over real numbers, with Python's
`round(x, 4)` as an abstract rounding function.  Periods are positive, as the source assumes. */
module Indicators {
  import opened Basics
  import opened Rounding

  function Sum(xs: seq<real>): real {
    if xs == [] then 0.0 else Sum(xs[..|xs| - 1]) + xs[|xs| - 1]
  }

  lemma {:induction false} SumFront(xs: seq<real>)
    requires xs != []
    ensures Sum(xs) == xs[0] + Sum(xs[1..])
  {
    if |xs| > 1 {
      SumFront(xs[..|xs| - 1]);
      assert xs[..|xs| - 1][1..] == xs[1..][..|xs[1..]| - 1];
    } else {
      assert xs[..0] == [] && xs[1..] == [];
    }
  }

  /** Sliding the window by one adds the new price and drops the oldest. */
  lemma SumSlides(prices: seq<real>, period: nat, i: nat)
    requires 1 <= period <= i < |prices|
    ensures Sum(prices[i + 1 - period..i + 1]) == Sum(prices[i - period..i]) + (prices[i] - prices[i - period])
  {
    var before, after := prices[i - period..i], prices[i + 1 - period..i + 1];
    SumFront(before);
    assert before[1..] == after[..|after| - 1];
  }

  method Sma(prices: seq<real>, period: nat, round: real -> real) returns (result: seq<Option<real>>)
    requires period >= 1
    ensures |result| == |prices|
    ensures forall i :: 0 <= i < |prices| ==>
              result[i] == if i < period - 1 then None
                           else Some(round(Sum(prices[i + 1 - period..i + 1]) / period as real))
  {
    result := Rolling(prices, period, (sum: real) => round(sum / period as real));
  }

  /** The rolling-sum loop of `sma`, for any function of the window's sum. */
  method Rolling(prices: seq<real>, period: nat, finish: real -> real) returns (result: seq<Option<real>>)
    requires period >= 1
    ensures |result| == |prices|
    ensures forall i :: 0 <= i < |prices| ==>
              result[i] == if i < period - 1 then None else Some(finish(Sum(prices[i + 1 - period..i + 1])))
  {
    if |prices| < period {
      return seq(|prices|, _ => None);
    }
    var windowSum := SumOf(prices[..period]);
    assert prices[..period] == prices[period - period..period];
    result := seq(period - 1, _ => None) + [Some(finish(windowSum))];
    for i := period to |prices|
      invariant |result| == i
      invariant windowSum == Sum(prices[i - period..i])
      invariant forall j :: 0 <= j < i ==>
                  result[j] == if j < period - 1 then None else Some(finish(Sum(prices[j + 1 - period..j + 1])))
    {
      SumSlides(prices, period, i);
      windowSum := windowSum + (prices[i] - prices[i - period]);
      result := result + [Some(finish(windowSum))];
    }
  }

  /** Python's `sum`. */
  method SumOf(xs: seq<real>) returns (total: real)
    ensures total == Sum(xs)
  {
    total := 0.0;
    for i := 0 to |xs|
      invariant total == Sum(xs[..i])
    {
      assert xs[..i + 1][..i] == xs[..i];
      total := total + xs[i];
    }
    assert xs[..|xs|] == xs;
  }

  // ---------------------------------------------------------------------------------------
  // Exponential moving average
  // ---------------------------------------------------------------------------------------

  function Weight(period: nat): real { 2.0 / (period as real + 1.0) }

  lemma WeightIsFraction(period: nat)
    requires period >= 1
    ensures 0.0 < Weight(period) <= 1.0 && Weight(period) * (period as real + 1.0) == 2.0
  {
  }

  function Blend(price: real, previous: real, k: real): real { price * k + previous * (1.0 - k) }

  /** A running average: seeded from the first `period` prices, then one value per price. */
  function Running(prices: seq<real>, period: nat, seed: seq<real> -> real, next: (real, real) -> real): (r: seq<real>)
    requires period >= 1
    ensures |r| == if |prices| < period then 0 else |prices| - period + 1
  {
    var n := |prices|;
    if n < period then []
    else if n == period then [seed(prices)]
    else
      var before := Running(prices[..n - 1], period, seed, next);
      before + [next(prices[n - 1], before[|before| - 1])]
  }

  function Mean(period: nat): seq<real> -> real
    requires period >= 1
  {
    (xs: seq<real>) => Sum(xs) / period as real
  }

  function Rounded(round: real -> real, f: seq<real> -> real): seq<real> -> real { (xs: seq<real>) => round(f(xs)) }

  function Blending(k: real): (real, real) -> real {
    (price: real, previous: real) => Blend(price, previous, k)
  }

  function RoundedNext(round: real -> real, f: (real, real) -> real): (real, real) -> real {
    (price: real, previous: real) => round(f(price, previous))
  }

  /** The average as the source computes it, rounded at every step. */
  function Ema(prices: seq<real>, period: nat, round: real -> real): seq<real>
    requires period >= 1
  {
    Running(prices, period, Rounded(round, Mean(period)), RoundedNext(round, Blending(Weight(period))))
  }

  /** The same average without any rounding. */
  function ExactEma(prices: seq<real>, period: nat): seq<real>
    requires period >= 1
  {
    Running(prices, period, Mean(period), Blending(Weight(period)))
  }

  /** `missing` leading `None`s, then the values. */
  function Padded(missing: nat, values: seq<real>): (r: seq<Option<real>>)
    ensures |r| == missing + |values|
    ensures forall i :: 0 <= i < |r| ==> r[i] == if i < missing then None else Some(values[i - missing])
  {
    seq(missing + |values|, i requires 0 <= i < missing + |values| =>
      if i < missing then None else Some(values[i - missing]))
  }

  lemma PaddedAppend(missing: nat, values: seq<real>, x: real)
    ensures Padded(missing, values + [x]) == Padded(missing, values) + [Some(x)]
  {
  }

  lemma PaddedSmall(missing: nat, x: real)
    ensures Padded(missing, []) == seq(missing, _ => None)
    ensures Padded(missing, [x]) == seq(missing, _ => None) + [Some(x)]
  {
  }

  /** A list of `n` entries that ends with the values. */
  function AtEnd(n: nat, values: seq<real>): seq<Option<real>>
    requires |values| <= n
  {
    Padded(n - |values|, values)
  }

  /** The loop of `ema`, for any seed and step. */
  method RunningOf(prices: seq<real>, period: nat, seed: seq<real> -> real, next: (real, real) -> real)
    returns (result: seq<Option<real>>)
    requires period >= 1
    ensures result == AtEnd(|prices|, Running(prices, period, seed, next))
  {
    if |prices| < period {
      PaddedSmall(|prices|, 0.0);
      return seq(|prices|, _ => None);
    }
    var last := seed(prices[..period]);
    PaddedSmall(period - 1, last);
    result := seq(period - 1, _ => None) + [Some(last)];
    ghost var values := [last];
    assert Running(prices[..period], period, seed, next) == values;
    for i := period to |prices|
      invariant values == Running(prices[..i], period, seed, next)
      invariant result == Padded(period - 1, values) && last == values[|values| - 1]
    {
      RunningNext(prices, i, period, seed, next);
      last := next(prices[i], last);
      PaddedAppend(period - 1, values, last);
      values := values + [last];
      result := result + [Some(last)];
    }
    assert prices[..|prices|] == prices;
  }

  lemma RunningNext(prices: seq<real>, i: nat, period: nat, seed: seq<real> -> real, next: (real, real) -> real)
    requires 1 <= period <= i < |prices|
    ensures var before := Running(prices[..i], period, seed, next);
            Running(prices[..i + 1], period, seed, next) == before + [next(prices[i], before[|before| - 1])]
  {
    assert prices[..i + 1][..i] == prices[..i];
  }

  method EmaOf(prices: seq<real>, period: nat, round: real -> real) returns (result: seq<Option<real>>)
    requires period >= 1
    ensures |Ema(prices, period, round)| <= |prices|
    ensures result == AtEnd(|prices|, Ema(prices, period, round))
  {
    result := RunningOf(prices, period, Rounded(round, Mean(period)), RoundedNext(round, Blending(Weight(period))));
  }

  function DriftBound(period: nat): real { HALF_STEP * (period as real + 1.0) / 2.0 }

  predicate Within(x: real, bound: real) { -bound <= x <= bound }

  lemma RoundingError(round: real -> real, x: real)
    requires IsRounding(round, HALF_STEP)
    ensures Within(round(x) - x, HALF_STEP)
  {
  }

  /** A drift of `bound` shrinks by exactly half a rounding step when weighted with `1 - k`. */
  ghost predicate FixedPoint(k: real, bound: real) {
    0.0 < k <= 1.0 && k * bound == HALF_STEP && bound >= HALF_STEP
  }

  lemma BoundIsFixedPoint(period: nat)
    requires period >= 1
    ensures FixedPoint(Weight(period), DriftBound(period))
  {
  }

  /** One step keeps `1 - k` of the drift. */
  lemma BlendDrift(price: real, rounded: real, exact: real, k: real, bound: real)
    requires 0.0 < k <= 1.0 && Within(rounded - exact, bound)
    ensures Within(Blend(price, rounded, k) - Blend(price, exact, k), bound - k * bound)
  {
  }

  lemma RoundedDrift(round: real -> real, y: real, z: real, bound: real)
    requires IsRounding(round, HALF_STEP) && Within(y - z, bound - HALF_STEP)
    ensures Within(round(y) - z, bound)
  {
    RoundingError(round, y);
  }

  ghost predicate SeedsClose(seed: seq<real> -> real, seed': seq<real> -> real, bound: real) {
    forall xs :: Within(seed(xs) - seed'(xs), bound)
  }

  ghost predicate StepsClose(next: (real, real) -> real, next': (real, real) -> real, bound: real) {
    forall p, x, y :: Within(x - y, bound) ==> Within(next(p, x) - next'(p, y), bound)
  }

  /** Two lists of the same length whose entries differ by at most `bound`. */
  ghost predicate Close(a: seq<real>, b: seq<real>, bound: real) {
    |a| == |b| && forall j :: 0 <= j < |a| ==> Within(a[j] - b[j], bound)
  }

  /** Two running averages that start within a bound and keep it in every step stay within it. */
  lemma {:induction false} RunningStaysClose(prices: seq<real>, period: nat, bound: real,
      seed: seq<real> -> real, next: (real, real) -> real, seed': seq<real> -> real, next': (real, real) -> real)
    requires period >= 1 && SeedsClose(seed, seed', bound) && StepsClose(next, next', bound)
    ensures Close(Running(prices, period, seed, next), Running(prices, period, seed', next'), bound)
    decreases |prices|
  {
    var n := |prices|;
    if n > period {
      var before, p := prices[..n - 1], prices[n - 1];
      RunningStaysClose(before, period, bound, seed, next, seed', next');
      var a, b := Running(before, period, seed, next), Running(before, period, seed', next');
      var x, y := a[|a| - 1], b[|b| - 1];
      assert Within(x - y, bound);
      assert Within(next(p, x) - next'(p, y), bound);
    } else if n == period {
      assert Within(seed(prices) - seed'(prices), bound);
    }
  }

  lemma EmaSeedsClose(period: nat, round: real -> real, bound: real)
    requires period >= 1 && IsRounding(round, HALF_STEP) && bound >= HALF_STEP
    ensures SeedsClose(Rounded(round, Mean(period)), Mean(period), bound)
  {
    forall xs: seq<real> ensures Within(Rounded(round, Mean(period))(xs) - Mean(period)(xs), bound) {
      RoundingError(round, Mean(period)(xs));
    }
  }

  lemma EmaStepsClose(k: real, bound: real, round: real -> real)
    requires 0.0 < k <= 1.0 && k * bound == HALF_STEP && IsRounding(round, HALF_STEP)
    ensures StepsClose(RoundedNext(round, Blending(k)), Blending(k), bound)
  {
    forall p: real, x: real, y: real | Within(x - y, bound)
      ensures Within(RoundedNext(round, Blending(k))(p, x) - Blending(k)(p, y), bound)
    {
      BlendDrift(p, x, y, k, bound);
      RoundedDrift(round, Blend(p, x, k), Blend(p, y, k), bound);
    }
  }

  lemma RoundedStaysClose(prices: seq<real>, period: nat, round: real -> real, k: real, bound: real)
    requires period >= 1 && IsRounding(round, HALF_STEP)
    requires FixedPoint(k, bound)
    ensures Close(Running(prices, period, Rounded(round, Mean(period)), RoundedNext(round, Blending(k))),
                  Running(prices, period, Mean(period), Blending(k)), bound)
  {
    EmaSeedsClose(period, round, bound);
    EmaStepsClose(k, bound, round);
    RunningStaysClose(prices, period, bound, Rounded(round, Mean(period)),
                      RoundedNext(round, Blending(k)), Mean(period), Blending(k));
  }

  /** MAIN: however long the input, rounding at every step never moves an average by more than
      0.00005 * (period + 1) / 2 from the exact one. */
  lemma EmaDriftIsBounded(prices: seq<real>, period: nat, round: real -> real)
    requires period >= 1 && IsRounding(round, HALF_STEP)
    ensures Close(Ema(prices, period, round), ExactEma(prices, period), DriftBound(period))
  {
    BoundIsFixedPoint(period);
    RoundedStaysClose(prices, period, round, Weight(period), DriftBound(period));
  }

  // --- The average in closed form ---

  function Power(x: real, n: nat): real { if n == 0 then 1.0 else x * Power(x, n - 1) }

  /** The `n` prices up to index `last`, each weighted `1 - k` times as much as the one after it. */
  function Weighted(prices: seq<real>, last: nat, k: real, n: nat): real
    requires n <= last + 1 <= |prices|
  {
    if n == 0 then 0.0 else Weighted(prices, last, k, n - 1) + k * Power(1.0 - k, n - 1) * prices[last - (n - 1)]
  }

  /** The exponentially weighted average at price index `i`: the mean of the first `period` prices fades by
      `1 - k` with each later price, and each later price enters with weight `k = 2 / (period + 1)`. */
  function WeightedAverage(prices: seq<real>, period: nat, i: nat): real
    requires 1 <= period <= i + 1 <= |prices|
  {
    var k, j := 2.0 / (period as real + 1.0), i - (period - 1);
    Power(1.0 - k, j) * (Sum(prices[..period]) / period as real) + Weighted(prices, i, k, j)
  }

  lemma {:induction false} WeightedPrefix(prices: seq<real>, m: nat, last: nat, k: real, n: nat)
    requires n <= last + 1 <= m <= |prices|
    ensures Weighted(prices[..m], last, k, n) == Weighted(prices, last, k, n)
  {
    if n > 0 {
      WeightedPrefix(prices, m, last, k, n - 1);
    }
  }

  /** One price more: everything before it fades once. */
  lemma {:induction false} WeightedNext(prices: seq<real>, last: nat, k: real, n: nat)
    requires 1 <= last < |prices| && n <= last
    ensures Weighted(prices, last, k, n + 1) == Faded(k, prices[last], Weighted(prices, last - 1, k, n))
  {
    if n > 0 {
      WeightedNext(prices, last, k, n - 1);
      NextTerm(k, prices[last], Weighted(prices, last - 1, k, n - 1), Power(1.0 - k, n - 1), prices[last - n]);
    } else {
      FirstTerm(k, prices[last]);
    }
  }

  function Faded(k: real, newest: real, w: real): real { k * newest + (1.0 - k) * w }

  lemma FirstTerm(k: real, newest: real)
    ensures 0.0 + k * 1.0 * newest == Faded(k, newest, 0.0)
  {
  }

  lemma NextTerm(k: real, newest: real, w: real, power: real, price: real)
    ensures Faded(k, newest, w) + k * ((1.0 - k) * power) * price == Faded(k, newest, w + k * power * price)
  {
    FadeOne(w, k, power, price);
  }

  lemma AveragePrefix(prices: seq<real>, m: nat, period: nat, i: nat)
    requires 1 <= period <= i + 1 <= m <= |prices|
    ensures WeightedAverage(prices[..m], period, i) == WeightedAverage(prices, period, i)
  {
    assert prices[..m][..period] == prices[..period];
    WeightedPrefix(prices, m, i, 2.0 / (period as real + 1.0), i - (period - 1));
  }

  lemma FadeOne(w: real, k: real, power: real, price: real)
    ensures (1.0 - k) * (w + k * power * price) == (1.0 - k) * w + k * ((1.0 - k) * power) * price
  {
  }

  lemma FadeMean(k: real, power: real, mean: real, w: real, price: real)
    ensures Blend(price, power * mean + w, k) == ((1.0 - k) * power) * mean + Faded(k, price, w)
  {
  }

  /** MAIN: the recursively computed average, without rounding, is the weighted average. */
  lemma {:induction false} ExactEmaIsWeighted(prices: seq<real>, period: nat, i: nat)
    requires 1 <= period <= i + 1 <= |prices|
    ensures |ExactEma(prices, period)| == |prices| - period + 1
    ensures ExactEma(prices, period)[i - (period - 1)] == WeightedAverage(prices, period, i)
    decreases |prices|
  {
    var n := |prices|;
    if i < n - 1 {
      ExactEmaIsWeighted(prices[..n - 1], period, i);
      AveragePrefix(prices, n - 1, period, i);
    } else if n == period {
      assert prices[..period] == prices;
    } else {
      ExactEmaIsWeighted(prices[..n - 1], period, n - 2);
      ExactEmaLast(prices, period);
    }
  }

  lemma ExactEmaLast(prices: seq<real>, period: nat)
    requires 1 <= period < |prices|
    requires var before := prices[..|prices| - 1];
             ExactEma(before, period)[|prices| - 1 - period] == WeightedAverage(before, period, |prices| - 2)
    ensures ExactEma(prices, period)[|prices| - period] == WeightedAverage(prices, period, |prices| - 1)
  {
    var n, k := |prices|, 2.0 / (period as real + 1.0);
    var j := n - 1 - period;
    assert prices[..n - 1][..period] == prices[..period];
    WeightedPrefix(prices, n - 1, n - 2, k, j);
    WeightedNext(prices, n - 1, k, j);
    FadeMean(k, Power(1.0 - k, j), Sum(prices[..period]) / period as real, Weighted(prices, n - 2, k, j), prices[n - 1]);
  }

  /** MAIN: at every price index the average that `ema` reports is within 0.00005 * (period + 1) / 2 of the
      weighted average. */
  lemma EmaIsWeighted(prices: seq<real>, period: nat, round: real -> real, i: nat)
    requires IsRounding(round, HALF_STEP) && 1 <= period <= i + 1 <= |prices|
    ensures |Ema(prices, period, round)| <= |prices| && AtEnd(|prices|, Ema(prices, period, round))[i].Some?
    ensures var drift := 0.00005 * (period as real + 1.0) / 2.0;
            -drift <= AtEnd(|prices|, Ema(prices, period, round))[i].value - WeightedAverage(prices, period, i) <= drift
  {
    EmaDriftIsBounded(prices, period, round);
    ExactEmaIsWeighted(prices, period, i);
    var j := i - (period - 1);
    assert Within(Ema(prices, period, round)[j] - ExactEma(prices, period)[j], DriftBound(period));
  }

  ghost predicate Between(prices: seq<real>, low: real, high: real) {
    forall i :: 0 <= i < |prices| ==> low <= prices[i] <= high
  }

  lemma {:induction false} SumBetween(xs: seq<real>, low: real, high: real)
    requires Between(xs, low, high)
    ensures Repeated(|xs|, low) <= Sum(xs) <= Repeated(|xs|, high)
  {
    if xs != [] {
      SumBetween(xs[..|xs| - 1], low, high);
    }
  }

  lemma MeanBetween(xs: seq<real>, low: real, high: real)
    requires xs != [] && Between(xs, low, high)
    ensures low <= Sum(xs) / |xs| as real <= high
  {
    SumBetween(xs, low, high);
    RepeatedIs(|xs|, low);
    RepeatedIs(|xs|, high);
    DivideBounds(Sum(xs), |xs| as real, low, high);
  }

  lemma DivideBounds(s: real, n: real, low: real, high: real)
    requires n > 0.0 && low * n <= s <= high * n
    ensures low <= s / n <= high
  {
  }

  lemma BlendBetween(price: real, previous: real, k: real, low: real, high: real)
    requires 0.0 < k <= 1.0 && low <= price <= high && low <= previous <= high
    ensures low <= Blend(price, previous, k) <= high
  {
    BlendShifts(price, previous, k, low);
    BlendShifts(price, previous, k, high);
    BlendNonNegative(price - low, previous - low, k);
    BlendNonNegative(high - price, high - previous, k);
  }

  lemma BlendShifts(price: real, previous: real, k: real, c: real)
    ensures Blend(price, previous, k) - c == Blend(price - c, previous - c, k)
    ensures c - Blend(price, previous, k) == Blend(c - price, c - previous, k)
  {
  }

  lemma BlendNonNegative(x: real, y: real, k: real)
    requires 0.0 < k <= 1.0 && x >= 0.0 && y >= 0.0
    ensures Blend(x, y, k) >= 0.0
  {
    assert x * k >= 0.0 && y * (1.0 - k) >= 0.0;
  }

  lemma {:induction false} RunningStaysInRange(prices: seq<real>, period: nat, low: real, high: real,
                                               seed: seq<real> -> real, next: (real, real) -> real)
    requires period >= 1 && Between(prices, low, high)
    requires forall xs :: |xs| == period && Between(xs, low, high) ==> low <= seed(xs) <= high
    requires forall p, x :: low <= p <= high && low <= x <= high ==> low <= next(p, x) <= high
    ensures Between(Running(prices, period, seed, next), low, high)
    decreases |prices|
  {
    if |prices| > period {
      RunningStaysInRange(prices[..|prices| - 1], period, low, high, seed, next);
    }
  }

  /** MAIN: between any two grid values that bound the prices the rounded average stays; with
      prices on the grid those are the lowest and the highest price. */
  lemma EmaStaysInRange(prices: seq<real>, period: nat, round: real -> real, low: real, high: real)
    requires period >= 1 && IsRounding(round, HALF_STEP)
    requires Between(prices, low, high) && OnGrid(round, low) && OnGrid(round, high)
    ensures Between(Ema(prices, period, round), low, high)
  {
    WeightIsFraction(period);
    var seed, next := Rounded(round, Mean(period)), RoundedNext(round, Blending(Weight(period)));
    forall xs: seq<real> | |xs| == period && Between(xs, low, high) ensures low <= seed(xs) <= high {
      MeanBetween(xs, low, high);
      RoundsBetween(round, Sum(xs) / period as real, low, high);
    }
    forall p, x | low <= p <= high && low <= x <= high ensures low <= next(p, x) <= high {
      NextStaysInRange(p, x, Weight(period), round, low, high);
    }
    RunningStaysInRange(prices, period, low, high, seed, next);
  }

  lemma NextStaysInRange(price: real, previous: real, k: real, round: real -> real, low: real, high: real)
    requires 0.0 < k <= 1.0 && IsRounding(round, HALF_STEP) && OnGrid(round, low) && OnGrid(round, high)
    requires low <= price <= high && low <= previous <= high
    ensures low <= round(Blend(price, previous, k)) <= high
  {
    BlendBetween(price, previous, k, low, high);
    RoundsBetween(round, Blend(price, previous, k), low, high);
  }

  lemma RoundsBetween(round: real -> real, x: real, low: real, high: real)
    requires IsRounding(round, HALF_STEP) && OnGrid(round, low) && OnGrid(round, high) && low <= x <= high
    ensures low <= round(x) <= high
  {
    assert round(low) == low && round(high) == high;
  }

  // ---------------------------------------------------------------------------------------
  // MACD
  // ---------------------------------------------------------------------------------------

  datatype Macd = Macd(line: seq<Option<real>>, signal: seq<Option<real>>, histogram: seq<Option<real>>)

  /** Pointwise rounded difference; missing where either side is missing. */
  ghost predicate IsDifference(a: seq<Option<real>>, b: seq<Option<real>>, d: seq<Option<real>>, round: real -> real)
    requires |a| == |b|
  {
    |d| == |a| && forall i :: 0 <= i < |a| ==>
      d[i] == if a[i].Some? && b[i].Some? then Some(round(a[i].value - b[i].value)) else None
  }

  method Difference(a: seq<Option<real>>, b: seq<Option<real>>, round: real -> real) returns (d: seq<Option<real>>)
    requires |a| == |b|
    ensures IsDifference(a, b, d, round)
  {
    d := [];
    for i := 0 to |a|
      invariant |d| == i
      invariant forall j :: 0 <= j < i ==>
                  d[j] == if a[j].Some? && b[j].Some? then Some(round(a[j].value - b[j].value)) else None
    {
      d := d + [if a[i].Some? && b[i].Some? then Some(round(a[i].value - b[i].value)) else None];
    }
  }

  /** The comprehension that keeps the present values. */
  method Present(xs: seq<Option<real>>, ghost missing: nat, ghost values: seq<real>) returns (r: seq<real>)
    requires xs == Padded(missing, values)
    ensures r == values
  {
    r := [];
    for n := 0 to |xs|
      invariant r == if n < missing then [] else values[..n - missing]
    {
      if xs[n].Some? {
        r := r + [xs[n].value];
      }
    }
  }

  /** Difference of two lists aligned at their ends, as long as the shorter one. */
  function Minus(a: seq<real>, b: seq<real>): (d: seq<real>)
    ensures |d| == if |a| <= |b| then |a| else |b|
  {
    var n := if |a| <= |b| then |a| else |b|;
    seq(n, i requires 0 <= i < n => a[i + |a| - n] - b[i + |b| - n])
  }

  ghost predicate AllOnGrid(round: real -> real, xs: seq<real>) {
    forall i :: 0 <= i < |xs| ==> OnGrid(round, xs[i])
  }

  lemma {:induction false} RunningIsOnGrid(round: real -> real, prices: seq<real>, period: nat,
                                           seed: seq<real> -> real, next: (real, real) -> real)
    requires period >= 1
    requires (forall xs :: OnGrid(round, seed(xs))) && (forall p, x :: OnGrid(round, next(p, x)))
    ensures AllOnGrid(round, Running(prices, period, seed, next))
    decreases |prices|
  {
    if |prices| > period {
      RunningIsOnGrid(round, prices[..|prices| - 1], period, seed, next);
    }
  }

  lemma EmaIsOnGrid(prices: seq<real>, period: nat, round: real -> real)
    requires period >= 1 && IsRounding(round, HALF_STEP)
    ensures AllOnGrid(round, Ema(prices, period, round))
  {
    RunningIsOnGrid(round, prices, period, Rounded(round, Mean(period)), RoundedNext(round, Blending(Weight(period))));
  }

  lemma MinusIsOnGrid(round: real -> real, a: seq<real>, b: seq<real>)
    requires Subtracts(round) && AllOnGrid(round, a) && AllOnGrid(round, b)
    ensures AllOnGrid(round, Minus(a, b))
  {
    var d := Minus(a, b);
    forall i | 0 <= i < |d| ensures OnGrid(round, d[i]) {
      assert SubtractsAt(round, a[i + |a| - |d|], b[i + |b| - |d|]);
    }
  }

  /** Where a difference of aligned lists comes from. */
  lemma MinusAt(n: nat, a: seq<real>, b: seq<real>, i: nat)
    requires |a| <= n && |b| <= n && i < n
    ensures var x, y, d := AtEnd(n, a)[i], AtEnd(n, b)[i], AtEnd(n, Minus(a, b))[i];
            d == if x.Some? && y.Some? then Some(x.value - y.value) else None
  {
  }

  lemma GridDifference(round: real -> real, x: real, y: real)
    requires Subtracts(round) && OnGrid(round, x) && OnGrid(round, y)
    ensures round(x - y) == x - y
  {
    assert SubtractsAt(round, x, y);
  }

  /** One entry of the difference of two aligned lists of grid values: rounding changes nothing. */
  lemma DifferenceAt(n: nat, a: seq<real>, b: seq<real>, round: real -> real, i: nat)
    requires |a| <= n && |b| <= n && i < n
    requires Subtracts(round) && AllOnGrid(round, a) && AllOnGrid(round, b)
    ensures var x, y := AtEnd(n, a)[i], AtEnd(n, b)[i];
            AtEnd(n, Minus(a, b))[i] == if x.Some? && y.Some? then Some(round(x.value - y.value)) else None
  {
    MinusAt(n, a, b, i);
    if i >= n - |a| && i >= n - |b| {
      GridDifference(round, a[i - (n - |a|)], b[i - (n - |b|)]);
    }
  }

  lemma DifferenceIsExact(x: seq<Option<real>>, y: seq<Option<real>>, d: seq<Option<real>>, round: real -> real,
                          a: seq<real>, b: seq<real>)
    requires |a| <= |x| && |b| <= |x| == |y| && x == AtEnd(|x|, a) && y == AtEnd(|y|, b)
    requires Subtracts(round) && AllOnGrid(round, a) && AllOnGrid(round, b)
    requires IsDifference(x, y, d, round)
    ensures d == AtEnd(|x|, Minus(a, b))
  {
    var m := AtEnd(|x|, Minus(a, b));
    forall i | 0 <= i < |d| ensures d[i] == m[i] {
      DifferenceAt(|x|, a, b, round, i);
    }
  }

  /** Rounded differences of grid values are the exact differences. */
  method ExactDifference(x: seq<Option<real>>, y: seq<Option<real>>, round: real -> real,
                         ghost a: seq<real>, ghost b: seq<real>) returns (d: seq<Option<real>>)
    requires |a| <= |x| && |b| <= |x| == |y| && x == AtEnd(|x|, a) && y == AtEnd(|y|, b)
    requires Subtracts(round) && AllOnGrid(round, a) && AllOnGrid(round, b)
    ensures d == AtEnd(|x|, Minus(a, b))
  {
    d := Difference(x, y, round);
    DifferenceIsExact(x, y, d, round, a, b);
  }

  /** The present part of the MACD line: fast average minus slow average. */
  function LineValues(prices: seq<real>, fast: nat, slow: nat, round: real -> real): seq<real>
    requires fast >= 1 && slow >= 1
  {
    Minus(Ema(prices, fast, round), Ema(prices, slow, round))
  }

  function SignalValues(prices: seq<real>, fast: nat, slow: nat, signal: nat, round: real -> real): seq<real>
    requires fast >= 1 && slow >= 1 && signal >= 1
  {
    Ema(LineValues(prices, fast, slow, round), signal, round)
  }

  /** MAIN: MACD for any periods.  Line, signal and histogram all have the input's length; the
      line is the exact difference of the two averages, the signal is the average of the line, and
      the histogram is exactly line minus signal, because grid values subtract without rounding. */
  method MacdOf(prices: seq<real>, fast: nat, slow: nat, signal: nat, round: real -> real) returns (r: Option<Macd>)
    requires fast >= 1 && slow >= 1 && signal >= 1 && IsRounding(round, HALF_STEP) && Subtracts(round)
    ensures r.None? <==> |prices| < slow + signal
    ensures r.Some? ==>
              var line, average := LineValues(prices, fast, slow, round), SignalValues(prices, fast, slow, signal, round);
              && r.value.line == AtEnd(|prices|, line)
              && r.value.signal == AtEnd(|prices|, average)
              && r.value.histogram == AtEnd(|prices|, Minus(line, average))
  {
    if |prices| < slow + signal {
      return None;
    }
    ghost var lineValues := LineValues(prices, fast, slow, round);
    var line := LineOf(prices, fast, slow, round);
    var signalLine := SignalOf(line, signal, round, lineValues);
    EmaIsOnGrid(lineValues, signal, round);
    var histogram := ExactDifference(line, signalLine, round, lineValues, Ema(lineValues, signal, round));
    return Some(Macd(line, signalLine, histogram));
  }

  method LineOf(prices: seq<real>, fast: nat, slow: nat, round: real -> real) returns (line: seq<Option<real>>)
    requires fast >= 1 && slow >= 1 && IsRounding(round, HALF_STEP) && Subtracts(round)
    ensures |LineValues(prices, fast, slow, round)| <= |prices|
    ensures line == AtEnd(|prices|, LineValues(prices, fast, slow, round))
    ensures AllOnGrid(round, LineValues(prices, fast, slow, round))
  {
    EmaIsOnGrid(prices, fast, round);
    EmaIsOnGrid(prices, slow, round);
    ghost var fastValues, slowValues := Ema(prices, fast, round), Ema(prices, slow, round);
    var fastEma := EmaOf(prices, fast, round);
    var slowEma := EmaOf(prices, slow, round);
    line := ExactDifference(fastEma, slowEma, round, fastValues, slowValues);
    MinusIsOnGrid(round, fastValues, slowValues);
  }

  method SignalOf(line: seq<Option<real>>, period: nat, round: real -> real, ghost values: seq<real>)
    returns (signal: seq<Option<real>>)
    requires period >= 1 && |values| <= |line| && line == AtEnd(|line|, values)
    ensures |Ema(values, period, round)| <= |line|
    ensures signal == AtEnd(|line|, Ema(values, period, round))
  {
    var valid := Present(line, |line| - |values|, values);
    var signalEma := EmaOf(valid, period, round);
    signal := seq(|line| - |valid|, _ => None) + signalEma;
  }

  /** MAIN: the missing prefixes.  The line starts at index `max(fast, slow) - 1`, which is
      `slow - 1` for `fast <= slow`; signal and histogram start `signal - 1` later. */
  lemma MacdPrefixes(prices: seq<real>, fast: nat, slow: nat, signal: nat, round: real -> real, i: nat)
    requires fast >= 1 && slow >= 1 && signal >= 1 && i < |prices|
    ensures var start := (if fast >= slow then fast else slow) - 1;
            var line, average := LineValues(prices, fast, slow, round), SignalValues(prices, fast, slow, signal, round);
            && |line| <= |prices| && |average| <= |prices|
            && (AtEnd(|prices|, line)[i].None? <==> i < start)
            && (AtEnd(|prices|, average)[i].None? <==> i < start + signal - 1)
            && (AtEnd(|prices|, Minus(line, average))[i].None? <==> i < start + signal - 1)
  {
  }

  // --- Drift from the unrounded MACD ---

  function ExactLine(prices: seq<real>, fast: nat, slow: nat): seq<real>
    requires fast >= 1 && slow >= 1
  {
    Minus(ExactEma(prices, fast), ExactEma(prices, slow))
  }

  function ExactSignal(prices: seq<real>, fast: nat, slow: nat, signal: nat): seq<real>
    requires fast >= 1 && slow >= 1 && signal >= 1
  {
    ExactEma(ExactLine(prices, fast, slow), signal)
  }

  lemma MinusClose(a: seq<real>, a': seq<real>, p: real, b: seq<real>, b': seq<real>, q: real)
    requires Close(a, a', p) && Close(b, b', q)
    ensures Close(Minus(a, b), Minus(a', b'), p + q)
  {
    var d, d' := Minus(a, b), Minus(a', b');
    forall j | 0 <= j < |d| ensures Within(d[j] - d'[j], p + q) {
      assert Within(a[j + |a| - |d|] - a'[j + |a| - |d|], p);
      assert Within(b[j + |b| - |d|] - b'[j + |b| - |d|], q);
    }
  }

  lemma CloseChain(a: seq<real>, b: seq<real>, c: seq<real>, p: real, q: real)
    requires Close(a, b, p) && Close(b, c, q)
    ensures Close(a, c, p + q)
  {
    forall j | 0 <= j < |a| ensures Within(a[j] - c[j], p + q) {
      assert Within(a[j] - b[j], p) && Within(b[j] - c[j], q);
    }
  }

  function Repeated(n: nat, x: real): real { if n == 0 then 0.0 else Repeated(n - 1, x) + x }

  lemma {:induction false} RepeatedIs(n: nat, x: real)
    ensures Repeated(n, x) == x * n as real
  {
    if n > 0 {
      RepeatedIs(n - 1, x);
      assert x * (n - 1) as real + x == x * n as real;
    }
  }

  lemma {:induction false} SumClose(xs: seq<real>, ys: seq<real>, bound: real)
    requires Close(xs, ys, bound)
    ensures Within(Sum(xs) - Sum(ys), Repeated(|xs|, bound))
  {
    if xs != [] {
      var n := |xs| - 1;
      SumClose(xs[..n], ys[..n], bound);
      assert Within(xs[n] - ys[n], bound);
    }
  }

  lemma MeanClose(xs: seq<real>, ys: seq<real>, period: nat, bound: real)
    requires Close(xs, ys, bound) && |xs| == period >= 1
    ensures Within(Mean(period)(xs) - Mean(period)(ys), bound)
  {
    SumClose(xs, ys, bound);
    RepeatedIs(period, bound);
    QuotientsClose(Sum(xs), Sum(ys), period as real, bound);
  }

  lemma QuotientsClose(x: real, y: real, n: real, bound: real)
    requires n > 0.0 && Within(x - y, bound * n)
    ensures Within(x / n - y / n, bound)
  {
    DivideBounds(x - y, n, -bound, bound);
    assert (x - y) / n == x / n - y / n;
  }

  /** A weighted mean of two differences is no larger than the larger one. */
  lemma BlendClose(p: real, q: real, x: real, y: real, k: real, bound: real)
    requires 0.0 < k <= 1.0 && Within(p - q, bound) && Within(x - y, bound)
    ensures Within(Blend(p, x, k) - Blend(q, y, k), bound)
  {
    BlendBetween(p - q, x - y, k, -bound, bound);
    BlendSubtracts(p, q, x, y, k);
  }

  lemma BlendSubtracts(p: real, q: real, x: real, y: real, k: real)
    ensures Blend(p, x, k) - Blend(q, y, k) == Blend(p - q, x - y, k)
  {
  }

  /** A seed and a step that do not magnify differences of their inputs. */
  ghost predicate SteadyFrom(seed: seq<real> -> real, period: nat, bound: real, a: seq<real>, b: seq<real>) {
    |a| == period && Close(a, b, bound) ==> Within(seed(a) - seed(b), bound)
  }

  ghost predicate SteadySeed(seed: seq<real> -> real, period: nat, bound: real) {
    forall a, b :: SteadyFrom(seed, period, bound, a, b)
  }

  predicate SteadyAt(next: (real, real) -> real, bound: real, p: real, q: real, x: real, y: real) {
    Within(p - q, bound) && Within(x - y, bound) ==> Within(next(p, x) - next(q, y), bound)
  }

  ghost predicate SteadyStep(next: (real, real) -> real, bound: real) {
    forall p, q, x, y :: SteadyAt(next, bound, p, q, x, y)
  }

  lemma {:induction false} RunningFollows(xs: seq<real>, ys: seq<real>, period: nat, bound: real,
                                          seed: seq<real> -> real, next: (real, real) -> real)
    requires period >= 1 && Close(xs, ys, bound) && SteadySeed(seed, period, bound) && SteadyStep(next, bound)
    ensures Close(Running(xs, period, seed, next), Running(ys, period, seed, next), bound)
    decreases |xs|
  {
    var n := |xs|;
    if n < period {
      assert Running(xs, period, seed, next) == [] == Running(ys, period, seed, next);
    } else if n == period {
      assert SteadyFrom(seed, period, bound, xs, ys);
    } else {
      assert Close(xs[..n - 1], ys[..n - 1], bound);
      RunningFollows(xs[..n - 1], ys[..n - 1], period, bound, seed, next);
      var a, b := Running(xs[..n - 1], period, seed, next), Running(ys[..n - 1], period, seed, next);
      RunningLast(xs, period, seed, next);
      RunningLast(ys, period, seed, next);
      assert Within(xs[n - 1] - ys[n - 1], bound);
      FollowStep(a, b, xs[n - 1], ys[n - 1], next, bound);
    }
  }

  lemma RunningLast(xs: seq<real>, period: nat, seed: seq<real> -> real, next: (real, real) -> real)
    requires 1 <= period < |xs|
    ensures var before := Running(xs[..|xs| - 1], period, seed, next);
            before != [] && Running(xs, period, seed, next) == before + [next(xs[|xs| - 1], before[|before| - 1])]
  {
  }

  lemma FollowStep(a: seq<real>, b: seq<real>, p: real, q: real, next: (real, real) -> real, bound: real)
    requires Close(a, b, bound) && a != [] && Within(p - q, bound) && SteadyStep(next, bound)
    ensures Close(a + [next(p, a[|a| - 1])], b + [next(q, b[|b| - 1])], bound)
  {
    var x, y := a[|a| - 1], b[|b| - 1];
    assert Within(x - y, bound) && SteadyAt(next, bound, p, q, x, y);
  }

  /** The exact average does not magnify differences of its inputs. */
  lemma ExactEmaClose(xs: seq<real>, ys: seq<real>, period: nat, bound: real)
    requires period >= 1 && Close(xs, ys, bound)
    ensures Close(ExactEma(xs, period), ExactEma(ys, period), bound)
  {
    WeightIsFraction(period);
    MeanIsSteady(period, bound);
    BlendIsSteady(Weight(period), bound);
    RunningFollows(xs, ys, period, bound, Mean(period), Blending(Weight(period)));
  }

  lemma MeanIsSteady(period: nat, bound: real)
    requires period >= 1
    ensures SteadySeed(Mean(period), period, bound)
  {
    forall a: seq<real>, b: seq<real> ensures SteadyFrom(Mean(period), period, bound, a, b) {
      if |a| == period && Close(a, b, bound) {
        MeanClose(a, b, period, bound);
      }
    }
  }

  lemma BlendIsSteady(k: real, bound: real)
    requires 0.0 < k <= 1.0
    ensures SteadyStep(Blending(k), bound)
  {
    forall p: real, q: real, x: real, y: real ensures SteadyAt(Blending(k), bound, p, q, x, y) {
      if Within(p - q, bound) && Within(x - y, bound) {
        BlendClose(p, q, x, y, k, bound);
      }
    }
  }

  function LineBound(fast: nat, slow: nat): real { DriftBound(fast) + DriftBound(slow) }

  /** MAIN: however long the input, rounding moves the MACD line by at most the drift of its two averages,
      the signal by at most its own drift more, and the histogram by at most the sum of both. */
  lemma MacdDriftIsBounded(prices: seq<real>, fast: nat, slow: nat, signal: nat, round: real -> real)
    requires fast >= 1 && slow >= 1 && signal >= 1 && IsRounding(round, HALF_STEP)
    ensures var line, average := LineValues(prices, fast, slow, round), SignalValues(prices, fast, slow, signal, round);
            var line', average' := ExactLine(prices, fast, slow), ExactSignal(prices, fast, slow, signal);
            var p, q := LineBound(fast, slow), DriftBound(signal) + LineBound(fast, slow);
            && Close(line, line', p)
            && Close(average, average', q)
            && Close(Minus(line, average), Minus(line', average'), p + q)
  {
    var line, line' := LineValues(prices, fast, slow, round), ExactLine(prices, fast, slow);
    var average, average' := Ema(line, signal, round), ExactEma(line', signal);
    EmaDriftIsBounded(prices, fast, round);
    EmaDriftIsBounded(prices, slow, round);
    MinusClose(Ema(prices, fast, round), ExactEma(prices, fast), DriftBound(fast),
               Ema(prices, slow, round), ExactEma(prices, slow), DriftBound(slow));
    EmaDriftIsBounded(line, signal, round);
    ExactEmaClose(line, line', signal, LineBound(fast, slow));
    CloseChain(average, ExactEma(line, signal), average', DriftBound(signal), LineBound(fast, slow));
    MinusClose(line, line', LineBound(fast, slow), average, average', DriftBound(signal) + LineBound(fast, slow));
  }

  /** MAIN: what the unrounded MACD is.  At every price index from the longer period on, the line is the fast
      weighted average minus the slow one, and the signal is the weighted average of the line. */
  lemma ExactMacdIsWeighted(prices: seq<real>, fast: nat, slow: nat, signal: nat, m: nat)
    requires fast >= 1 && slow >= 1 && signal >= 1
    ensures var start := (if fast >= slow then fast else slow) - 1;
            var line := ExactLine(prices, fast, slow);
            && (start + m < |prices| ==>
                  && m < |line|
                  && line[m] == WeightedAverage(prices, fast, start + m) - WeightedAverage(prices, slow, start + m))
            && (m < |line| ==> start + m < |prices|)
            && (signal <= m + 1 <= |line| ==>
                  && m - (signal - 1) < |ExactSignal(prices, fast, slow, signal)|
                  && ExactSignal(prices, fast, slow, signal)[m - (signal - 1)] == WeightedAverage(line, signal, m))
  {
    var start, line := (if fast >= slow then fast else slow) - 1, ExactLine(prices, fast, slow);
    if start + m < |prices| {
      ExactEmaIsWeighted(prices, fast, start + m);
      ExactEmaIsWeighted(prices, slow, start + m);
    }
    if signal <= m + 1 <= |line| {
      ExactEmaIsWeighted(line, signal, m);
    }
  }
}
