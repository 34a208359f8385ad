/** Candle building: the tick bucket loop of `_build_intraday_candles`
(backend/providers/internal_sim_provider.py). */
module Candles {
  import opened Basics

  datatype Candle = Candle(time: int, open: real, high: real, low: real, close: real, volume: int)

  /** A tick: `t` and `p` may be missing; a missing volume is 0. */
  datatype Tick = Tick(time: Option<int>, price: Option<real>, volume: int)

  /** `_INTERVAL_SECONDS`. */
  const INTERVAL_SECONDS: map<string, int> := map[
    "1m" := 60, "2m" := 120, "3m" := 180, "5m" := 300, "10m" := 600,
    "15m" := 900, "30m" := 1800, "1h" := 3600, "2h" := 7200, "4h" := 14400]

  function Max(x: real, y: real): real { if x >= y then x else y }

  function Min(x: real, y: real): real { if x <= y then x else y }

  /** `(t // width) * width`; for a positive width Python's and Dafny's division agree. */
  function BucketId(time: int, width: int): int
    requires width > 0
  {
    time / width * width
  }

  /** A bucketing assigns to each time the start of its bucket. */
  function Width(width: int): int -> int
    requires width > 0
  {
    (time: int) => BucketId(time, width)
  }

  // ---------------------------------------------------------------------------------------
  // Bucketing candles of any width; a tick is a candle of a single price
  // ---------------------------------------------------------------------------------------

  function Merge(a: Candle, b: Candle): Candle {
    Candle(a.time, a.open, Max(a.high, b.high), Min(a.low, b.low), b.close, a.volume + b.volume)
  }

  /** Puts the next item into the open bucket, or closes it and starts another. */
  function Add(out: seq<Candle>, x: Candle, bucket: int -> int): seq<Candle> {
    if out != [] && out[|out| - 1].time == bucket(x.time)
    then out[..|out| - 1] + [Merge(out[|out| - 1], x)]
    else out + [x.(time := bucket(x.time))]
  }

  function Bucketed(xs: seq<Candle>, bucket: int -> int): seq<Candle> {
    if xs == [] then [] else Add(Bucketed(xs[..|xs| - 1], bucket), xs[|xs| - 1], bucket)
  }

  /** The usable ticks, as candles of one price. */
  function TickCandles(ticks: seq<Tick>): seq<Candle> {
    if ticks == [] then []
    else
      var t := ticks[|ticks| - 1];
      TickCandles(ticks[..|ticks| - 1]) +
      (if t.time.Some? && t.price.Some?
       then [TickCandle(t)]
       else [])
  }

  function TickCandle(t: Tick): Candle
    requires t.time.Some? && t.price.Some?
  {
    Candle(t.time.value, t.price.value, t.price.value, t.price.value, t.price.value, t.volume)
  }

  /** The loop over one day's ticks. */
  method BuildCandles(ticks: seq<Tick>, width: int) returns (candles: seq<Candle>)
    requires width > 0
    ensures candles == Bucketed(TickCandles(ticks), Width(width))
  {
    candles := BucketTicks(ticks, Width(width));
  }

  /** `bucket` is the open candle, `candles` the closed ones. */
  method BucketTicks(ticks: seq<Tick>, bucketOf: int -> int) returns (candles: seq<Candle>)
    ensures candles == Bucketed(TickCandles(ticks), bucketOf)
  {
    candles := [];
    var bucket: Option<Candle> := None;
    for n := 0 to |ticks|
      invariant bucket.None? ==> candles == []
      invariant Bucketed(TickCandles(ticks[..n]), bucketOf) == WithOpen(candles, bucket)
    {
      BucketedNext(ticks, n, bucketOf);
      if ticks[n].time.Some? && ticks[n].price.Some? {
        candles, bucket := AddTick(candles, bucket, ticks[n], bucketOf);
      }
    }
    assert ticks[..|ticks|] == ticks;
    if bucket.Some? {
      candles := candles + [bucket.value];
    }
  }

  /** The body of the loop for a usable tick.  The source keeps the start of the open bucket in a
      variable of its own; it is always the open candle's time. */
  method AddTick(candles: seq<Candle>, bucket: Option<Candle>, tick: Tick, bucketOf: int -> int)
    returns (closed: seq<Candle>, open: Option<Candle>)
    requires tick.time.Some? && tick.price.Some? && (bucket.None? ==> candles == [])
    ensures WithOpen(closed, open) == Add(WithOpen(candles, bucket), TickCandle(tick), bucketOf)
    ensures open.Some?
  {
    AdvanceAdds(candles, bucket, TickCandle(tick), bucketOf);
    var id := bucketOf(tick.time.value);
    var price := tick.price.value;
    closed := candles;
    if bucket.None? || bucket.value.time != id {
      if bucket.Some? {
        closed := closed + [bucket.value];
      }
      open := Some(Candle(id, price, price, price, price, tick.volume));
    } else {
      var b := bucket.value;
      open := Some(b.(high := Max(b.high, price), low := Min(b.low, price), close := price,
                      volume := b.volume + tick.volume));
    }
  }

  ghost function WithOpen(candles: seq<Candle>, bucket: Option<Candle>): seq<Candle> {
    candles + (if bucket.Some? then [bucket.value] else [])
  }

  lemma BucketedNext(ticks: seq<Tick>, n: nat, bucket: int -> int)
    requires n < |ticks|
    ensures var t := ticks[n];
            var before := Bucketed(TickCandles(ticks[..n]), bucket);
            Bucketed(TickCandles(ticks[..n + 1]), bucket) ==
            if t.time.Some? && t.price.Some?
            then Add(before, TickCandle(t), bucket)
            else before
  {
    var seen, t := TickCandles(ticks[..n]), ticks[n];
    assert ticks[..n + 1][..n] == ticks[..n];
    if t.time.Some? && t.price.Some? {
      assert (seen + [TickCandle(t)])[..|seen|] == seen;
    } else {
      assert seen + [] == seen;
    }
  }

  /** The closed candles and the open one after the next item. */
  ghost function Advance(candles: seq<Candle>, open: Option<Candle>, x: Candle, bucket: int -> int)
    : (seq<Candle>, Option<Candle>)
  {
    if open.Some? && open.value.time == bucket(x.time) then (candles, Some(Merge(open.value, x)))
    else (WithOpen(candles, open), Some(x.(time := bucket(x.time))))
  }

  lemma AdvanceAdds(candles: seq<Candle>, open: Option<Candle>, x: Candle, bucket: int -> int)
    requires open.None? ==> candles == []
    ensures var (candles', open') := Advance(candles, open, x, bucket);
            Add(WithOpen(candles, open), x, bucket) == WithOpen(candles', open')
    ensures open.None? ==> WithOpen(candles, open) == candles
  {
  }

  // ---------------------------------------------------------------------------------------
  // Homomorphism
  // ---------------------------------------------------------------------------------------

  /** A finer bucket lies inside one coarser bucket. */
  lemma FinerBucketInside(time: int, fine: int, coarse: int)
    requires fine > 0 && coarse > 0 && coarse % fine == 0
    ensures BucketId(BucketId(time, fine), coarse) == BucketId(time, coarse)
  {
    var ratio, q, p := coarse / fine, time / coarse, time / fine;
    assert q * coarse == (q * ratio) * fine by { MulRearrange(q, fine, ratio); }
    MulOrder(q * ratio, p, fine, time % fine);
    DivUnique(p * fine, q, coarse);
  }

  lemma MulRearrange(q: int, fine: int, ratio: int)
    ensures q * (ratio * fine) == (q * ratio) * fine
  {
  }

  lemma MulMonotone(a: int, b: int, f: int)
    requires f >= 0
    ensures a <= b ==> a * f <= b * f
  {
  }

  /** `a * f <= p * f + o` with `o` below `f` bounds `a` by `p`. */
  lemma MulOrder(a: int, p: int, f: int, o: int)
    requires f > 0 && 0 <= o < f && a * f <= p * f + o
    ensures a * f <= p * f
  {
    MulMonotone(p + 1, a, f);
    MulMonotone(a, p, f);
  }

  lemma DivUnique(x: int, q: int, d: int)
    requires d > 0 && q * d <= x < q * d + d
    ensures x / d == q
  {
    var k := x / d;
    MulMonotone(1, k - q, d);
    MulMonotone(k - q, -1, d);
    MulDistributes(k, q, d);
  }

  lemma MulDistributes(k: int, q: int, d: int)
    ensures (k - q) * d == k * d - q * d
  {
  }

  /** Merging two items of the same bucket first, or one after the other, is the same. */
  lemma AddMerged(out: seq<Candle>, a: Candle, b: Candle, bucket: int -> int)
    requires bucket(a.time) == bucket(b.time)
    ensures Add(Add(out, a, bucket), b, bucket) == Add(out, Merge(a, b), bucket)
  {
  }

  /** Every bucket of `fine` lies inside one bucket of `coarse`. */
  ghost predicate Refines(fine: int -> int, coarse: int -> int) {
    forall t :: coarse(fine(t)) == coarse(t)
  }

  lemma RebucketStep(before: seq<Candle>, x: Candle, fine: int -> int, coarse: int -> int)
    requires coarse(fine(x.time)) == coarse(x.time)
    ensures Bucketed(Add(before, x, fine), coarse) == Add(Bucketed(before, coarse), x, coarse)
  {
    if before != [] && before[|before| - 1].time == fine(x.time) {
      var zs, y := before[..|before| - 1], before[|before| - 1];
      assert (zs + [Merge(y, x)])[..|zs|] == zs;
      AddMerged(Bucketed(zs, coarse), y, x, coarse);
    } else {
      assert (before + [x.(time := fine(x.time))])[..|before|] == before;
    }
  }

  lemma {:induction false} RefinedBuckets(xs: seq<Candle>, fine: int -> int, coarse: int -> int)
    requires Refines(fine, coarse)
    ensures Bucketed(Bucketed(xs, fine), coarse) == Bucketed(xs, coarse)
  {
    if xs != [] {
      var before, x := xs[..|xs| - 1], xs[|xs| - 1];
      RefinedBuckets(before, fine, coarse);
      RebucketStep(Bucketed(before, fine), x, fine, coarse);
    }
  }

  /** MAIN: whenever `fine` divides `coarse`, bucketing at `coarse` equals bucketing at `fine` and
      then bucketing the result at `coarse`, for every list of ticks or candles in any order. */
  lemma CoarseEqualsFineThenCoarse(xs: seq<Candle>, fine: int, coarse: int)
    requires fine > 0 && coarse > 0 && coarse % fine == 0
    ensures Bucketed(Bucketed(xs, Width(fine)), Width(coarse)) == Bucketed(xs, Width(coarse))
  {
    forall t: int ensures Width(coarse)(Width(fine)(t)) == Width(coarse)(t) {
      FinerBucketInside(t, fine, coarse);
    }
    RefinedBuckets(xs, Width(fine), Width(coarse));
  }

  // ---------------------------------------------------------------------------------------
  // What a candle says about its items
  // ---------------------------------------------------------------------------------------

  ghost predicate WellFormed(c: Candle) {
    c.low <= c.open <= c.high && c.low <= c.close <= c.high
  }

  ghost predicate AllWellFormed(xs: seq<Candle>) {
    forall i :: 0 <= i < |xs| ==> WellFormed(xs[i])
  }

  function Volume(xs: seq<Candle>): int {
    if xs == [] then 0 else Volume(xs[..|xs| - 1]) + xs[|xs| - 1].volume
  }

  /** Volume is conserved and OHLC stays well formed. */
  lemma {:induction false} BucketedConserves(xs: seq<Candle>, bucket: int -> int)
    ensures Volume(Bucketed(xs, bucket)) == Volume(xs)
    ensures AllWellFormed(xs) ==> AllWellFormed(Bucketed(xs, bucket))
  {
    if xs != [] {
      var before, x := xs[..|xs| - 1], xs[|xs| - 1];
      BucketedConserves(before, bucket);
      AddConserves(Bucketed(before, bucket), x, bucket);
      assert AllWellFormed(xs) ==> AllWellFormed(before) && WellFormed(x);
    }
  }

  lemma AddConserves(out: seq<Candle>, x: Candle, bucket: int -> int)
    ensures Volume(Add(out, x, bucket)) == Volume(out) + x.volume
    ensures AllWellFormed(out) && WellFormed(x) ==> AllWellFormed(Add(out, x, bucket))
  {
    var next := Add(out, x, bucket);
    if out != [] && out[|out| - 1].time == bucket(x.time) {
      assert next[..|next| - 1] == out[..|out| - 1] && next[|next| - 1] == Merge(out[|out| - 1], x);
    } else {
      assert next[..|next| - 1] == out;
    }
  }

  ghost predicate InBucket(xs: seq<Candle>, id: int, bucket: int -> int) {
    forall i :: 0 <= i < |xs| ==> bucket(xs[i].time) == id
  }

  /** `c` opens with the first item, closes with the last, and spans exactly their range. */
  ghost predicate Summarizes(c: Candle, xs: seq<Candle>) {
    && xs != []
    && c.open == xs[0].open && c.close == xs[|xs| - 1].close && c.volume == Volume(xs)
    && (forall i :: 0 <= i < |xs| ==> c.low <= xs[i].low && xs[i].high <= c.high)
    && (exists i :: 0 <= i < |xs| && xs[i].high == c.high)
    && (exists i :: 0 <= i < |xs| && xs[i].low == c.low)
  }

  lemma SummaryGrows(c: Candle, xs: seq<Candle>, x: Candle)
    requires Summarizes(c, xs)
    ensures Summarizes(Merge(c, x), xs + [x])
  {
    var all := xs + [x];
    assert all[..|xs|] == xs && all[|xs|] == x;
    assert forall i :: 0 <= i < |xs| ==> all[i] == xs[i];
    var i :| 0 <= i < |xs| && xs[i].high == c.high;
    var j :| 0 <= j < |xs| && xs[j].low == c.low;
    assert all[if c.high >= x.high then i else |xs|].high == Merge(c, x).high;
    assert all[if c.low <= x.low then j else |xs|].low == Merge(c, x).low;
  }

  /** MAIN, part one: items of a single bucket give exactly one candle, which summarises them. */
  lemma {:induction false} OneBucketOneCandle(xs: seq<Candle>, id: int, bucket: int -> int)
    requires xs != [] && InBucket(xs, id, bucket)
    ensures var out := Bucketed(xs, bucket); |out| == 1 && out[0].time == id && Summarizes(out[0], xs)
  {
    var before, x := xs[..|xs| - 1], xs[|xs| - 1];
    assert before + [x] == xs;
    if before == [] {
      assert Bucketed(before, bucket) == [] && Bucketed(xs, bucket) == [x.(time := bucket(x.time))];
      assert xs[0].high == x.high && xs[..0] == [];
    } else {
      OneBucketOneCandle(before, id, bucket);
      SummaryGrows(Bucketed(before, bucket)[0], before, x);
    }
  }

  /** MAIN, part two: where the bucket changes, the list splits and both sides are bucketed on
      their own.  With part one this fixes the output for every input. */
  lemma {:induction false} BucketsSplit(xs: seq<Candle>, ys: seq<Candle>, bucket: int -> int)
    requires xs != [] && ys != [] ==> bucket(xs[|xs| - 1].time) != bucket(ys[0].time)
    ensures Bucketed(xs + ys, bucket) == Bucketed(xs, bucket) + Bucketed(ys, bucket)
    decreases |ys|
  {
    if ys == [] {
      assert xs + ys == xs;
    } else {
      var before, y := ys[..|ys| - 1], ys[|ys| - 1];
      LastOfConcat(xs, ys);
      BucketsSplit(xs, before, bucket);
      BucketedLast(xs + ys, xs + before, y, bucket);
      BucketedLast(ys, before, y, bucket);
      SplitAtEnd(xs, before, y, bucket);
    }
  }

  lemma LastOfConcat<T>(xs: seq<T>, ys: seq<T>)
    requires ys != []
    ensures ys == ys[..|ys| - 1] + [ys[|ys| - 1]]
    ensures xs + ys == (xs + ys[..|ys| - 1]) + [ys[|ys| - 1]]
    ensures |ys| > 1 ==> ys[..|ys| - 1][0] == ys[0]
  {
  }

  lemma BucketedLast(all: seq<Candle>, before: seq<Candle>, x: Candle, bucket: int -> int)
    requires all == before + [x]
    ensures Bucketed(all, bucket) == Add(Bucketed(before, bucket), x, bucket)
  {
  }

  lemma SplitAtEnd(xs: seq<Candle>, before: seq<Candle>, y: Candle, bucket: int -> int)
    requires xs != [] && before == [] ==> bucket(xs[|xs| - 1].time) != bucket(y.time)
    ensures Add(Bucketed(xs, bucket) + Bucketed(before, bucket), y, bucket) ==
            Bucketed(xs, bucket) + Add(Bucketed(before, bucket), y, bucket)
  {
    LastBucketId(xs, bucket);
    LastBucketId(before, bucket);
    AddAfter(Bucketed(xs, bucket), Bucketed(before, bucket), y, bucket);
  }

  lemma AddAfter(a: seq<Candle>, b: seq<Candle>, y: Candle, bucket: int -> int)
    requires a != [] && b == [] ==> a[|a| - 1].time != bucket(y.time)
    ensures Add(a + b, y, bucket) == a + Add(b, y, bucket)
  {
  }

  lemma {:induction false} LastBucketId(xs: seq<Candle>, bucket: int -> int)
    ensures var out := Bucketed(xs, bucket);
            if xs == [] then out == []
            else out != [] && out[|out| - 1].time == bucket(xs[|xs| - 1].time)
  {
  }

  /** Every chart interval can be rebuilt from one-minute candles. */
  lemma IntervalsFromMinutes(xs: seq<Candle>, interval: string)
    requires interval in INTERVAL_SECONDS
    ensures INTERVAL_SECONDS[interval] > 0
    ensures Bucketed(Bucketed(xs, Width(60)), Width(INTERVAL_SECONDS[interval])) == Bucketed(xs, Width(INTERVAL_SECONDS[interval]))
  {
    assert INTERVAL_SECONDS[interval] % 60 == 0;
    CoarseEqualsFineThenCoarse(xs, 60, INTERVAL_SECONDS[interval]);
  }

  // ---------------------------------------------------------------------------------------
  // Which candle a tick goes to
  // ---------------------------------------------------------------------------------------

  lemma MultipleOf(q: int, width: int)
    requires width > 0
    ensures q * width % width == 0 && q * width / width == q
  {
    DivUnique(q * width, q, width);
  }

  /** MAIN: the bucket of a time is the multiple of the width at or below it. */
  lemma BucketIsMultipleBelow(time: int, width: int)
    requires width > 0
    ensures BucketId(time, width) <= time < BucketId(time, width) + width
    ensures BucketId(time, width) % width == 0
  {
    MultipleOf(time / width, width);
  }

  lemma SameBucketIff(a: int, b: int, width: int)
    requires width > 0
    ensures BucketId(a, width) == BucketId(b, width) <==> a / width == b / width
  {
    MultipleOf(a / width, width);
    MultipleOf(b / width, width);
  }

  /** The index of the candle that the i-th item goes to. */
  function Home(xs: seq<Candle>, i: nat, bucket: int -> int): int
    requires i < |xs|
  {
    |Bucketed(xs[..i + 1], bucket)| - 1
  }

  lemma HomeNext(xs: seq<Candle>, i: nat, bucket: int -> int)
    requires i < |xs|
    ensures Home(xs, i, bucket) ==
            if i == 0 then 0
            else if bucket(xs[i].time) == bucket(xs[i - 1].time) then Home(xs, i - 1, bucket)
            else Home(xs, i - 1, bucket) + 1
  {
    assert xs[..i + 1][..i] == xs[..i];
    LastBucketId(xs[..i], bucket);
  }

  /** `c` is a candle of a bucket that the item falls into and spans it. */
  ghost predicate Holds(c: Candle, x: Candle, bucket: int -> int) {
    c.time == bucket(x.time) && c.low <= x.low && x.high <= c.high
  }

  ghost predicate AllAtHome(out: seq<Candle>, xs: seq<Candle>, bucket: int -> int) {
    forall i :: 0 <= i < |xs| ==> 0 <= Home(xs, i, bucket) < |out| && Holds(out[Home(xs, i, bucket)], xs[i], bucket)
  }

  lemma {:induction false} EveryItemIsAtHome(xs: seq<Candle>, bucket: int -> int)
    ensures AllAtHome(Bucketed(xs, bucket), xs, bucket)
  {
    if xs != [] {
      var n := |xs| - 1;
      var before := xs[..n];
      EveryItemIsAtHome(before, bucket);
      LastBucketId(before, bucket);
      forall i | 0 <= i < |xs|
        ensures 0 <= Home(xs, i, bucket) < |Bucketed(xs, bucket)|
        ensures Holds(Bucketed(xs, bucket)[Home(xs, i, bucket)], xs[i], bucket)
      {
        if i < n {
          HomeOfPrefix(xs, i, bucket);
          AddKeepsHeld(Bucketed(before, bucket), xs[n], bucket, Home(before, i, bucket), xs[i]);
        } else {
          assert xs[..n + 1] == xs;
        }
      }
    }
  }

  lemma HomeOfPrefix(xs: seq<Candle>, i: nat, bucket: int -> int)
    requires i < |xs| - 1
    ensures Home(xs, i, bucket) == Home(xs[..|xs| - 1], i, bucket)
  {
    assert xs[..i + 1] == xs[..|xs| - 1][..i + 1];
  }

  lemma AddKeepsHeld(out: seq<Candle>, x: Candle, bucket: int -> int, h: int, y: Candle)
    requires 0 <= h < |out| && Holds(out[h], y, bucket)
    ensures h < |Add(out, x, bucket)| && Holds(Add(out, x, bucket)[h], y, bucket)
  {
  }

  /** MAIN: the items, in order, are cut into candles exactly where the quotient of the time by the width
      changes; each is spanned by its candle, whose time is the multiple of the width at or below it. */
  lemma CutWhereQuotientChanges(xs: seq<Candle>, width: int, i: nat)
    requires width > 0 && i < |xs|
    ensures var out, home := Bucketed(xs, Width(width)), Home(xs, i, Width(width));
            && 0 <= home < |out|
            && out[home].time <= xs[i].time < out[home].time + width && out[home].time % width == 0
            && out[home].low <= xs[i].low && xs[i].high <= out[home].high
            && (i == 0 ==> home == 0)
            && (i > 0 ==> home == Home(xs, i - 1, Width(width))
                                  + (if xs[i].time / width == xs[i - 1].time / width then 0 else 1))
            && (i == |xs| - 1 ==> home == |out| - 1)
  {
    EveryItemIsAtHome(xs, Width(width));
    HomeNext(xs, i, Width(width));
    BucketIsMultipleBelow(xs[i].time, width);
    if i > 0 {
      SameBucketIff(xs[i].time, xs[i - 1].time, width);
    }
    assert xs[..|xs|] == xs;
  }

  /** MAIN: from ticks to items.  The usable ticks, those with a time and a price, become the items one for
      one and in order, each with the tick's price four times and its volume. */
  lemma {:induction false} UsableTicksInOrder(ticks: seq<Tick>, n: nat)
    requires n < |ticks|
    ensures var t, xs, place := ticks[n], TickCandles(ticks), |TickCandles(ticks[..n])|;
            if t.time.Some? && t.price.Some?
            then place < |xs| && xs[place] == Candle(t.time.value, t.price.value, t.price.value, t.price.value,
                                                     t.price.value, t.volume)
                 && |TickCandles(ticks[..n + 1])| == place + 1
            else |TickCandles(ticks[..n + 1])| == place
    ensures TickCandles(ticks[..n + 1]) <= TickCandles(ticks)
  {
    assert ticks[..n + 1][..n] == ticks[..n];
    if n < |ticks| - 1 {
      var before := ticks[..|ticks| - 1];
      UsableTicksInOrder(before, n);
      assert before[..n] == ticks[..n] && before[..n + 1] == ticks[..n + 1];
    } else {
      assert ticks[..n + 1] == ticks;
    }
  }
}
