/** `_aggregate_calendar_candles` (backend/routes/market.py): daily candles folded into calendar
weeks or months, with two-digit rounding as an abstract rounding function. */
module CalendarCandles {
  import opened Basics
  import opened Rounding
  import opened Candles
  import opened Calendars

  /** A daily candle, or an entry whose fields do not parse. */
  datatype Bar = Malformed | Bar(candle: Candle)

  datatype Group = Group(period: (int, int), candle: Candle)

  function NonNegative(v: int): int { if v > 0 then v else 0 }

  function Opened(cal: Calendar, round: real -> real, x: Candle): Candle {
    Candle(cal.start(x.time), round(x.open), round(x.high), round(x.low), round(x.close), NonNegative(x.volume))
  }

  function Extended(round: real -> real, c: Candle, x: Candle): Candle {
    c.(high := round(Max(Max(Max(Max(c.high, x.high), x.open), x.close), x.low)),
       low := round(Min(Min(Min(Min(c.low, x.low), x.open), x.close), x.high)),
       close := round(x.close),
       volume := c.volume + NonNegative(x.volume))
  }

  function Add(cal: Calendar, round: real -> real, out: seq<Group>, x: Candle): seq<Group> {
    var period := cal.period(x.time);
    if out != [] && out[|out| - 1].period == period
    then out[..|out| - 1] + [Group(period, Extended(round, out[|out| - 1].candle, x))]
    else out + [Group(period, Opened(cal, round, x))]
  }

  function Grouped(cal: Calendar, round: real -> real, xs: seq<Candle>): seq<Group> {
    if xs == [] then [] else Add(cal, round, Grouped(cal, round, xs[..|xs| - 1]), xs[|xs| - 1])
  }

  function Usable(bars: seq<Bar>): seq<Candle> {
    if bars == [] then []
    else Usable(bars[..|bars| - 1]) + (if bars[|bars| - 1].Bar? then [bars[|bars| - 1].candle] else [])
  }

  function CandlesOf(groups: seq<Group>): (r: seq<Candle>)
    ensures |r| == |groups| && forall i :: 0 <= i < |r| ==> r[i] == groups[i].candle
  {
    seq(|groups|, i requires 0 <= i < |groups| => groups[i].candle)
  }

  method Aggregate(cal: Calendar, round: real -> real, bars: seq<Bar>) returns (aggregated: seq<Candle>)
    ensures aggregated == CandlesOf(Grouped(cal, round, Usable(bars)))
  {
    aggregated := [];
    var current: Option<Group> := None;
    ghost var closed: seq<Group> := [];
    for n := 0 to |bars|
      invariant aggregated == CandlesOf(closed)
      invariant current.None? ==> closed == []
      invariant Grouped(cal, round, Usable(bars[..n])) == WithCurrent(closed, current)
    {
      GroupedNext(cal, round, bars, n);
      if bars[n].Malformed? {
        continue;
      }
      var x := bars[n].candle;
      AddToCurrent(cal, round, closed, current, x);
      var period := cal.period(x.time);
      if current.None? || period != current.value.period {
        if current.Some? {
          CandlesOfAppend(closed, current.value);
          aggregated := aggregated + [current.value.candle];
          closed := closed + [current.value];
        }
        current := Some(Group(period, Opened(cal, round, x)));
      } else {
        current := Some(Group(period, Extended(round, current.value.candle, x)));
      }
    }
    assert bars[..|bars|] == bars;
    if current.Some? {
      CandlesOfAppend(closed, current.value);
      aggregated := aggregated + [current.value.candle];
    }
  }

  function BarsOf(candles: seq<Candle>): (r: seq<Bar>)
    ensures |r| == |candles| && forall i :: 0 <= i < |r| ==> r[i] == Bar(candles[i])
  {
    seq(|candles|, i requires 0 <= i < |candles| => Bar(candles[i]))
  }

  /** The whole function: other intervals pass through untouched. */
  method AggregateCalendarCandles(bars: seq<Bar>, interval: string, round: real -> real) returns (r: seq<Bar>)
    ensures r == if interval == "1wk" then BarsOf(CandlesOf(Grouped(Weeks(), round, Usable(bars))))
                 else if interval == "1mo" then BarsOf(CandlesOf(Grouped(Months(), round, Usable(bars))))
                 else bars
  {
    if interval != "1wk" && interval != "1mo" {
      return bars;
    }
    var candles := Aggregate(if interval == "1wk" then Weeks() else Months(), round, bars);
    r := BarsOf(candles);
  }

  lemma GroupedNext(cal: Calendar, round: real -> real, bars: seq<Bar>, n: nat)
    requires n < |bars|
    ensures var before := Grouped(cal, round, Usable(bars[..n]));
            Grouped(cal, round, Usable(bars[..n + 1])) ==
            if bars[n].Malformed? then before else Add(cal, round, before, bars[n].candle)
  {
    var seen := Usable(bars[..n]);
    assert bars[..n + 1][..n] == bars[..n];
    if bars[n].Malformed? {
      assert seen + [] == seen;
    } else {
      assert (seen + [bars[n].candle])[..|seen|] == seen;
    }
  }

  lemma CandlesOfAppend(groups: seq<Group>, g: Group)
    ensures CandlesOf(groups + [g]) == CandlesOf(groups) + [g.candle]
  {
  }

  ghost function WithCurrent(closed: seq<Group>, current: Option<Group>): seq<Group> {
    closed + (if current.Some? then [current.value] else [])
  }

  lemma AddToCurrent(cal: Calendar, round: real -> real, closed: seq<Group>, current: Option<Group>, x: Candle)
    requires current.None? ==> closed == []
    ensures Add(cal, round, WithCurrent(closed, current), x) ==
            var period := cal.period(x.time);
            if current.None? || period != current.value.period
            then WithCurrent(closed, current) + [Group(period, Opened(cal, round, x))]
            else closed + [Group(period, Extended(round, current.value.candle, x))]
  {
  }

  // ---------------------------------------------------------------------------------------
  // What the fold keeps
  // ---------------------------------------------------------------------------------------

  function GroupVolume(groups: seq<Group>): int {
    if groups == [] then 0 else GroupVolume(groups[..|groups| - 1]) + groups[|groups| - 1].candle.volume
  }

  function TradedVolume(xs: seq<Candle>): int {
    if xs == [] then 0
    else TradedVolume(xs[..|xs| - 1]) + (if xs[|xs| - 1].volume > 0 then xs[|xs| - 1].volume else 0)
  }

  /** MAIN: no non-negative volume is lost or invented, whatever the input. */
  lemma {:induction false} VolumeIsConserved(cal: Calendar, round: real -> real, xs: seq<Candle>)
    ensures GroupVolume(Grouped(cal, round, xs)) == TradedVolume(xs)
  {
    if xs != [] {
      VolumeIsConserved(cal, round, xs[..|xs| - 1]);
      var out := Grouped(cal, round, xs[..|xs| - 1]);
      var next := Add(cal, round, out, xs[|xs| - 1]);
      assert next[..|next| - 1] == out || next[..|next| - 1] == out[..|out| - 1];
    }
  }

  /** Rounding after every step is the same as rounding the extremes once. */
  lemma RoundedMax(round: real -> real, a: real, b: real)
    requires IsRounding(round, HALF_CENT)
    ensures round(Max(round(a), b)) == round(Max(a, b))
    ensures round(Min(round(a), b)) == round(Min(a, b))
  {
    assert round(round(a)) == round(a);
  }

  /** `c` is the rounded summary of well-formed daily candles. */
  ghost predicate RoundsUp(round: real -> real, c: Candle, whole: Candle) {
    && c.open == round(whole.open) && c.high == round(whole.high) && c.low == round(whole.low)
    && c.close == round(whole.close)
  }

  /** A well-formed day widens the range by its high and its low only. */
  lemma ExtendedRange(c: Candle, x: Candle)
    requires WellFormed(x)
    ensures Max(Max(Max(Max(c.high, x.high), x.open), x.close), x.low) == Max(c.high, x.high)
    ensures Min(Min(Min(Min(c.low, x.low), x.open), x.close), x.high) == Min(c.low, x.low)
  {
  }

  lemma ExtendRounds(round: real -> real, c: Candle, whole: Candle, x: Candle)
    requires IsRounding(round, HALF_CENT) && WellFormed(x) && RoundsUp(round, c, whole)
    ensures RoundsUp(round, Extended(round, c, x), Merge(whole, x))
  {
    ExtendedRange(c, x);
    RoundedMax(round, whole.high, x.high);
    RoundedMax(round, whole.low, x.low);
  }

  ghost predicate SamePeriod(cal: Calendar, xs: seq<Candle>, period: (int, int)) {
    forall i :: 0 <= i < |xs| ==> cal.period(xs[i].time) == period
  }

  /** The unrounded summary of a list: merging from the left. */
  function Whole(xs: seq<Candle>): Candle
    requires xs != []
  {
    if |xs| == 1 then xs[0] else Merge(Whole(xs[..|xs| - 1]), xs[|xs| - 1])
  }

  lemma {:induction false} WholeSummarizes(xs: seq<Candle>)
    requires xs != []
    ensures Summarizes(Whole(xs), xs)
  {
    if |xs| == 1 {
      assert xs[..0] == [] && xs[0].high == xs[0].high;
      assert Volume(xs) == Volume(xs[..0]) + xs[0].volume;
    } else {
      var before, x := xs[..|xs| - 1], xs[|xs| - 1];
      WholeSummarizes(before);
      SummaryGrows(Whole(before), before, x);
      assert before + [x] == xs;
    }
  }

  /** MAIN, part one: well-formed days of one period become one candle: the first open, the last
      close and the exact extremes, each rounded once. */
  lemma {:induction false} OnePeriodOneCandle(cal: Calendar, round: real -> real, xs: seq<Candle>, period: (int, int))
    requires IsRounding(round, HALF_CENT) && xs != [] && AllWellFormed(xs) && SamePeriod(cal, xs, period)
    ensures var out := Grouped(cal, round, xs);
            && |out| == 1 && out[0].period == period && out[0].candle.time == cal.start(xs[0].time)
            && RoundsUp(round, out[0].candle, Whole(xs))
            && Summarizes(Whole(xs), xs)
  {
    WholeSummarizes(xs);
    var before, x := xs[..|xs| - 1], xs[|xs| - 1];
    if before == [] {
      assert Grouped(cal, round, before) == [];
    } else {
      OnePeriodOneCandle(cal, round, before, period);
      ExtendRounds(round, Grouped(cal, round, before)[0].candle, Whole(before), x);
    }
  }

  /** MAIN, part two: where the period changes, the fold starts afresh. */
  lemma {:induction false} PeriodsSplit(cal: Calendar, round: real -> real, xs: seq<Candle>, ys: seq<Candle>)
    requires xs != [] && ys != [] ==> cal.period(xs[|xs| - 1].time) != cal.period(ys[0].time)
    ensures Grouped(cal, round, xs + ys) == Grouped(cal, round, xs) + Grouped(cal, round, ys)
  {
    if ys == [] {
      assert xs + ys == xs;
    } else {
      var before, y := ys[..|ys| - 1], ys[|ys| - 1];
      PeriodsSplit(cal, round, xs, before);
      LastPeriod(cal, round, xs);
      LastPeriod(cal, round, before);
      assert ys == before + [y];
      SplitSnocGroups(cal, round, xs, before, y);
    }
  }

  lemma SplitSnocGroups(cal: Calendar, round: real -> real, xs: seq<Candle>, before: seq<Candle>, y: Candle)
    requires Grouped(cal, round, xs + before) == Grouped(cal, round, xs) + Grouped(cal, round, before)
    requires var a, b := Grouped(cal, round, xs), Grouped(cal, round, before);
             a != [] && b == [] ==> a[|a| - 1].period != cal.period(y.time)
    ensures Grouped(cal, round, xs + (before + [y])) == Grouped(cal, round, xs) + Grouped(cal, round, before + [y])
  {
    GroupedSnoc(cal, round, xs + before, y);
    GroupedSnoc(cal, round, before, y);
    AddAfterGroups(cal, round, Grouped(cal, round, xs), Grouped(cal, round, before), y);
    assert xs + (before + [y]) == (xs + before) + [y];
  }

  lemma GroupedSnoc(cal: Calendar, round: real -> real, xs: seq<Candle>, x: Candle)
    ensures Grouped(cal, round, xs + [x]) == Add(cal, round, Grouped(cal, round, xs), x)
  {
  }

  lemma AddAfterGroups(cal: Calendar, round: real -> real, a: seq<Group>, b: seq<Group>, y: Candle)
    requires a != [] && b == [] ==> a[|a| - 1].period != cal.period(y.time)
    ensures Add(cal, round, a + b, y) == a + Add(cal, round, b, y)
  {
  }

  lemma {:induction false} LastPeriod(cal: Calendar, round: real -> real, xs: seq<Candle>)
    ensures var out := Grouped(cal, round, xs);
            if xs == [] then out == [] else out != [] && out[|out| - 1].period == cal.period(xs[|xs| - 1].time)
  {
  }

  ghost predicate Sound(round: real -> real, c: Candle) {
    WellFormed(c) && OnGrid(round, c.high) && OnGrid(round, c.low) && OnGrid(round, c.open)
  }

  ghost predicate AllSound(round: real -> real, groups: seq<Group>) {
    forall i :: 0 <= i < |groups| ==> Sound(round, groups[i].candle)
  }

  lemma OpenedIsSound(cal: Calendar, round: real -> real, x: Candle)
    requires IsRounding(round, HALF_CENT) && WellFormed(x)
    ensures Sound(round, Opened(cal, round, x))
  {
  }

  lemma ExtendedIsSound(round: real -> real, c: Candle, x: Candle)
    requires IsRounding(round, HALF_CENT) && Sound(round, c)
    ensures Sound(round, Extended(round, c, x))
  {
    var top := Max(Max(Max(Max(c.high, x.high), x.open), x.close), x.low);
    var bottom := Min(Min(Min(Min(c.low, x.low), x.open), x.close), x.high);
    assert bottom <= c.open <= top && bottom <= x.close <= top;
    assert round(bottom) <= round(c.open) <= round(top) && round(bottom) <= round(x.close) <= round(top);
    assert round(c.open) == c.open;
  }

  /** MAIN: OHLC stays well formed through every rounding step. */
  lemma {:induction false} GroupsAreWellFormed(cal: Calendar, round: real -> real, xs: seq<Candle>)
    requires IsRounding(round, HALF_CENT) && AllWellFormed(xs)
    ensures AllSound(round, Grouped(cal, round, xs))
  {
    if xs != [] {
      var before, x := xs[..|xs| - 1], xs[|xs| - 1];
      GroupsAreWellFormed(cal, round, before);
      AddKeepsSound(cal, round, Grouped(cal, round, before), x);
    }
  }

  lemma AddKeepsSound(cal: Calendar, round: real -> real, out: seq<Group>, x: Candle)
    requires IsRounding(round, HALF_CENT) && WellFormed(x) && AllSound(round, out)
    ensures AllSound(round, Add(cal, round, out, x))
  {
    var period := cal.period(x.time);
    if out != [] && out[|out| - 1].period == period {
      ExtendedIsSound(round, out[|out| - 1].candle, x);
      AppendSound(round, out[..|out| - 1], Group(period, Extended(round, out[|out| - 1].candle, x)));
    } else {
      OpenedIsSound(cal, round, x);
      AppendSound(round, out, Group(period, Opened(cal, round, x)));
    }
  }

  lemma AppendSound(round: real -> real, out: seq<Group>, g: Group)
    requires AllSound(round, out) && Sound(round, g.candle)
    ensures AllSound(round, out + [g])
  {
  }

  // ---------------------------------------------------------------------------------------
  // One candle per period
  // ---------------------------------------------------------------------------------------

  ghost predicate InTimeOrder(xs: seq<Candle>) {
    forall i, j :: 0 <= i < j < |xs| ==> xs[i].time <= xs[j].time
  }

  ghost predicate StrictlyLater(groups: seq<Group>) {
    forall i, j :: 0 <= i < j < |groups| ==> groups[i].candle.time < groups[j].candle.time
  }

  /** Every group is stamped with the start of its period. */
  ghost predicate Stamped(cal: Calendar, groups: seq<Group>) {
    forall i :: 0 <= i < |groups| ==>
      cal.period(groups[i].candle.time) == groups[i].period && cal.start(groups[i].candle.time) == groups[i].candle.time
  }

  lemma StartIsInPeriod(cal: Calendar, t: int)
    requires IsCalendar(cal)
    ensures cal.start(cal.start(t)) == cal.start(t) && cal.period(cal.start(t)) == cal.period(t)
  {
    assert cal.start(t) <= cal.start(t) <= t;
  }

  lemma LaterStart(cal: Calendar, a: int, b: int)
    requires IsCalendar(cal) && a <= b && cal.period(a) != cal.period(b)
    ensures cal.start(a) < cal.start(b)
  {
    assert cal.start(a) <= a && cal.start(a) != cal.start(b);
  }

  lemma AddInOrder(cal: Calendar, round: real -> real, out: seq<Group>, x: Candle, before: int)
    requires IsCalendar(cal) && StrictlyLater(out) && Stamped(cal, out)
    requires out != [] ==> out[|out| - 1].period == cal.period(before) && out[|out| - 1].candle.time == cal.start(before)
    requires out != [] ==> before <= x.time
    ensures var next := Add(cal, round, out, x);
            && StrictlyLater(next) && Stamped(cal, next) && next != []
            && next[|next| - 1].period == cal.period(x.time) && next[|next| - 1].candle.time == cal.start(x.time)
  {
    StartIsInPeriod(cal, x.time);
    var next := Add(cal, round, out, x);
    if out != [] && out[|out| - 1].period == cal.period(x.time) {
      assert forall i :: 0 <= i < |out| ==> next[i].candle.time == out[i].candle.time && next[i].period == out[i].period;
    } else if out != [] {
      LaterStart(cal, before, x.time);
      assert forall i :: 0 <= i < |out| ==> out[i].candle.time <= out[|out| - 1].candle.time;
    }
  }

  /** MAIN: candles in time order become one candle per period: their times strictly ascend and each is
      the start of its period, which is that of the last day when the group was last extended. */
  lemma {:induction false} OneCandlePerPeriod(cal: Calendar, round: real -> real, xs: seq<Candle>)
    requires IsCalendar(cal) && InTimeOrder(xs)
    ensures var out := Grouped(cal, round, xs);
            && StrictlyLater(out) && Stamped(cal, out)
            && (xs == [] ==> out == [])
            && (xs != [] ==> out != [] && out[|out| - 1].period == cal.period(xs[|xs| - 1].time)
                             && out[|out| - 1].candle.time == cal.start(xs[|xs| - 1].time))
  {
    if xs != [] {
      var before, x := xs[..|xs| - 1], xs[|xs| - 1];
      OneCandlePerPeriod(cal, round, before);
      AddInOrder(cal, round, Grouped(cal, round, before), x, if before == [] then 0 else before[|before| - 1].time);
    }
  }

  ghost predicate HasCandleAt(groups: seq<Group>, time: int) {
    exists i :: 0 <= i < |groups| && groups[i].candle.time == time
  }

  lemma AddKeepsCandles(cal: Calendar, round: real -> real, out: seq<Group>, x: Candle, time: int)
    requires HasCandleAt(out, time)
    ensures HasCandleAt(Add(cal, round, out, x), time)
  {
    var i :| 0 <= i < |out| && out[i].candle.time == time;
    assert Add(cal, round, out, x)[i].candle.time == time;
  }

  /** Every day has the candle of its own period. */
  lemma {:induction false} EveryDayHasItsCandle(cal: Calendar, round: real -> real, xs: seq<Candle>, k: nat)
    requires IsCalendar(cal) && InTimeOrder(xs) && k < |xs|
    ensures HasCandleAt(Grouped(cal, round, xs), cal.start(xs[k].time))
  {
    if k < |xs| - 1 {
      EveryDayHasItsCandle(cal, round, xs[..|xs| - 1], k);
      AddKeepsCandles(cal, round, Grouped(cal, round, xs[..|xs| - 1]), xs[|xs| - 1], cal.start(xs[k].time));
    } else {
      OneCandlePerPeriod(cal, round, xs);
    }
  }

  /** MAIN: the weekly and the monthly chart: one candle for each week or month that has a day, in order,
      stamped with its Monday or its first. */
  lemma ChartHasOneCandlePerPeriod(cal: Calendar, round: real -> real, xs: seq<Candle>)
    requires (cal == Weeks() || cal == Months()) && InTimeOrder(xs)
    ensures var out := Grouped(cal, round, xs);
            && StrictlyLater(out) && Stamped(cal, out)
            && forall k :: 0 <= k < |xs| ==> HasCandleAt(out, cal.start(xs[k].time))
  {
    WeeksAreCalendar();
    MonthsAreCalendar();
    ForAnyCalendar(cal, round, xs);
  }

  lemma ForAnyCalendar(cal: Calendar, round: real -> real, xs: seq<Candle>)
    requires IsCalendar(cal) && InTimeOrder(xs)
    ensures var out := Grouped(cal, round, xs);
            && StrictlyLater(out) && Stamped(cal, out)
            && forall k :: 0 <= k < |xs| ==> HasCandleAt(out, cal.start(xs[k].time))
  {
    OneCandlePerPeriod(cal, round, xs);
    forall k | 0 <= k < |xs| ensures HasCandleAt(Grouped(cal, round, xs), cal.start(xs[k].time)) {
      EveryDayHasItsCandle(cal, round, xs, k);
    }
  }

  // ---------------------------------------------------------------------------------------
  // Days of any shape
  // ---------------------------------------------------------------------------------------

  function HighestPrice(x: Candle): real { Max(Max(Max(x.high, x.open), x.close), x.low) }

  function LowestPrice(x: Candle): real { Min(Min(Min(x.low, x.open), x.close), x.high) }

  /** The highest of the first day's high and of all four prices of every later day. */
  ghost predicate IsTop(top: real, xs: seq<Candle>) {
    && xs != [] && xs[0].high <= top
    && (forall i :: 1 <= i < |xs| ==> xs[i].high <= top && xs[i].open <= top && xs[i].close <= top && xs[i].low <= top)
    && (top == xs[0].high || exists i :: 1 <= i < |xs| && top in {xs[i].high, xs[i].open, xs[i].close, xs[i].low})
  }

  /** The lowest of the first day's low and of all four prices of every later day. */
  ghost predicate IsBottom(bottom: real, xs: seq<Candle>) {
    && xs != [] && xs[0].low >= bottom
    && (forall i :: 1 <= i < |xs| ==>
          xs[i].high >= bottom && xs[i].open >= bottom && xs[i].close >= bottom && xs[i].low >= bottom)
    && (bottom == xs[0].low || exists i :: 1 <= i < |xs| && bottom in {xs[i].high, xs[i].open, xs[i].close, xs[i].low})
  }

  lemma TopGrows(top: real, xs: seq<Candle>, x: Candle)
    requires IsTop(top, xs)
    ensures IsTop(Max(top, HighestPrice(x)), xs + [x])
  {
    var all := xs + [x];
    assert all[|xs|] == x && forall i :: 0 <= i < |xs| ==> all[i] == xs[i];
    if top >= HighestPrice(x) && top != xs[0].high {
      var i :| 1 <= i < |xs| && top in {xs[i].high, xs[i].open, xs[i].close, xs[i].low};
      assert top in {all[i].high, all[i].open, all[i].close, all[i].low};
    } else if top < HighestPrice(x) {
      assert HighestPrice(x) in {all[|xs|].high, all[|xs|].open, all[|xs|].close, all[|xs|].low};
    }
  }

  lemma BottomGrows(bottom: real, xs: seq<Candle>, x: Candle)
    requires IsBottom(bottom, xs)
    ensures IsBottom(Min(bottom, LowestPrice(x)), xs + [x])
  {
    var all := xs + [x];
    assert all[|xs|] == x && forall i :: 0 <= i < |xs| ==> all[i] == xs[i];
    if bottom <= LowestPrice(x) && bottom != xs[0].low {
      var i :| 1 <= i < |xs| && bottom in {xs[i].high, xs[i].open, xs[i].close, xs[i].low};
      assert bottom in {all[i].high, all[i].open, all[i].close, all[i].low};
    } else if bottom > LowestPrice(x) {
      assert LowestPrice(x) in {all[|xs|].high, all[|xs|].open, all[|xs|].close, all[|xs|].low};
    }
  }

  lemma ExtendedSpans(round: real -> real, c: Candle, x: Candle, top: real, bottom: real)
    requires IsRounding(round, HALF_CENT) && c.high == round(top) && c.low == round(bottom)
    ensures Extended(round, c, x).high == round(Max(top, HighestPrice(x)))
    ensures Extended(round, c, x).low == round(Min(bottom, LowestPrice(x)))
  {
    Regroup(c.high, x.high, x.open, x.close, x.low);
    Regroup(c.low, x.low, x.open, x.close, x.high);
    RoundedMax(round, top, HighestPrice(x));
    RoundedMax(round, bottom, LowestPrice(x));
  }

  lemma Regroup(a: real, b: real, c: real, d: real, e: real)
    ensures Max(Max(Max(Max(a, b), c), d), e) == Max(a, Max(Max(Max(b, c), d), e))
    ensures Min(Min(Min(Min(a, b), c), d), e) == Min(a, Min(Min(Min(b, c), d), e))
  {
  }

  /** The candle that opens with the first day, closes with the last, reaches from `bottom` to `top`, each
      rounded once, and adds up what was traded. */
  function Spanning(cal: Calendar, round: real -> real, xs: seq<Candle>, top: real, bottom: real): Candle
    requires xs != []
  {
    Candle(cal.start(xs[0].time), round(xs[0].open), round(top), round(bottom), round(xs[|xs| - 1].close),
           TradedVolume(xs))
  }

  lemma SpanningNext(cal: Calendar, round: real -> real, xs: seq<Candle>, x: Candle, top: real, bottom: real)
    requires IsRounding(round, HALF_CENT) && xs != []
    ensures Extended(round, Spanning(cal, round, xs, top, bottom), x) ==
            Spanning(cal, round, xs + [x], Max(top, HighestPrice(x)), Min(bottom, LowestPrice(x)))
  {
    TradedNext(xs, x);
    ExtendedSpans(round, Spanning(cal, round, xs, top, bottom), x, top, bottom);
    SpanningGrows(cal, round, xs, x, Max(top, HighestPrice(x)), Min(bottom, LowestPrice(x)), top, bottom);
  }

  lemma TradedNext(xs: seq<Candle>, x: Candle)
    ensures TradedVolume(xs + [x]) == TradedVolume(xs) + NonNegative(x.volume)
  {
    assert (xs + [x])[..|xs|] == xs;
  }

  lemma SpanningGrows(cal: Calendar, round: real -> real, xs: seq<Candle>, x: Candle, high: real, low: real,
                      top: real, bottom: real)
    requires xs != [] && TradedVolume(xs + [x]) == TradedVolume(xs) + NonNegative(x.volume)
    ensures Spanning(cal, round, xs + [x], high, low) ==
            Spanning(cal, round, xs, top, bottom).(high := round(high), low := round(low), close := round(x.close),
              volume := TradedVolume(xs) + NonNegative(x.volume))
  {
  }

  lemma SpanningOne(cal: Calendar, round: real -> real, x: Candle)
    ensures Grouped(cal, round, [x]) == [Group(cal.period(x.time), Spanning(cal, round, [x], x.high, x.low))]
  {
    assert [x][..0] == [] && Grouped(cal, round, []) == [] && TradedVolume([]) == 0;
  }

  /** MAIN: one period, whatever the days look like: one candle, and it spans exactly the prices of all
      its days. */
  lemma {:induction false} OnePeriodSpansAllPrices(cal: Calendar, round: real -> real, xs: seq<Candle>, period: (int, int))
    returns (top: real, bottom: real)
    requires IsRounding(round, HALF_CENT) && xs != [] && SamePeriod(cal, xs, period)
    ensures IsTop(top, xs) && IsBottom(bottom, xs)
    ensures Grouped(cal, round, xs) == [Group(period, Spanning(cal, round, xs, top, bottom))]
  {
    var before, x := xs[..|xs| - 1], xs[|xs| - 1];
    assert before + [x] == xs;
    assert cal.period(x.time) == period;
    if before == [] {
      top, bottom := x.high, x.low;
      assert xs == [x];
      SpanningOne(cal, round, x);
    } else {
      var high, low := OnePeriodSpansAllPrices(cal, round, before, period);
      top, bottom := Max(high, HighestPrice(x)), Min(low, LowestPrice(x));
      TopGrows(high, before, x);
      BottomGrows(low, before, x);
      SpanningNext(cal, round, before, x, high, low);
      SamePeriodNext(cal, round, before, x, Group(period, Spanning(cal, round, before, high, low)));
    }
  }

  lemma SamePeriodNext(cal: Calendar, round: real -> real, before: seq<Candle>, x: Candle, g: Group)
    requires Grouped(cal, round, before) == [g] && cal.period(x.time) == g.period
    ensures Grouped(cal, round, before + [x]) == [Group(g.period, Extended(round, g.candle, x))]
  {
    GroupedSnoc(cal, round, before, x);
    assert [g][..0] == [];
  }

  /** The entries that parse become the days one for one and in order. */
  lemma {:induction false} UsableBarsInOrder(bars: seq<Bar>, n: nat)
    requires n < |bars|
    ensures var days, place := Usable(bars), |Usable(bars[..n])|;
            match bars[n]
            case Malformed => |Usable(bars[..n + 1])| == place
            case Bar(x) => |Usable(bars[..n + 1])| == place + 1 && place < |days| && days[place] == x
    ensures Usable(bars[..n + 1]) <= Usable(bars)
  {
    assert bars[..n + 1][..n] == bars[..n];
    if n < |bars| - 1 {
      var before := bars[..|bars| - 1];
      UsableBarsInOrder(before, n);
      assert before[..n] == bars[..n] && before[..n + 1] == bars[..n + 1];
    } else {
      assert bars[..n + 1] == bars;
    }
  }
}
