/** What the price cache stores of a quote (backend/cache/redis_client.py), in terms of the quote that was
written and of plain arithmetic; two-digit rounding as an abstract rounding function. */
module DayChange {
  import opened Basics
  import opened Rounding
  import opened SymbolMap
  import opened PriceCache
  import opened PriceCacheRuns

  // ---------------------------------------------------------------------------------------
  // Reading a quote
  // ---------------------------------------------------------------------------------------

  /** `v` is what a chain of `or` over these keys reads: the first truthy value, else that of the last key. */
  ghost predicate Reads(q: Quote, keys: seq<string>, v: Value) {
    exists i :: ReadsAt(q, keys, v, i)
  }

  /** What `or` passes over: a missing value, zero, false and the empty text. */
  predicate Falsy(v: Value) {
    v == Nil || v == Num(0.0) || v == Flag(false) || (v.Str? && v.text == "")
  }

  ghost predicate ReadsAt(q: Quote, keys: seq<string>, v: Value, i: int) {
    && 0 <= i < |keys| && v == Get(q, keys[i])
    && (forall j :: 0 <= j < i ==> Falsy(Get(q, keys[j])))
    && (!Falsy(v) || i == |keys| - 1)
  }

  /** The number read from these keys, if any. */
  ghost predicate ReadsNumber(q: Quote, keys: seq<string>, x: Option<real>) {
    exists v :: Reads(q, keys, v) && x == match v
                                         case Nil => None
                                         case Num(n) => Some(n)
                                         case Flag(b) => Some(if b then 1.0 else 0.0)
                                         case Str(_, number) => number
  }

  lemma {:induction false} FirstOfReads(q: Quote, keys: seq<string>, v: Value)
    requires keys != []
    ensures Reads(q, keys, v) <==> v == FirstOf(q, keys)
  {
    if |keys| == 1 || Truthy(Get(q, keys[0])) {
      assert ReadsAt(q, keys, FirstOf(q, keys), 0);
    } else {
      FirstOfReads(q, keys[1..], v);
      if i :| ReadsAt(q, keys, v, i) {
        assert ReadsAt(q, keys[1..], v, i - 1);
      }
      if i :| ReadsAt(q, keys[1..], v, i) {
        assert forall j :: 1 <= j < |keys| ==> keys[j] == keys[1..][j - 1];
        assert ReadsAt(q, keys, v, i + 1);
      }
    }
  }

  lemma NumberRead(q: Quote, keys: seq<string>, x: Option<real>)
    requires keys != []
    ensures ReadsNumber(q, keys, x) <==> x == SafeFloat(FirstOf(q, keys))
  {
    FirstOfReads(q, keys, FirstOf(q, keys));
    forall v ensures Reads(q, keys, v) <==> v == FirstOf(q, keys) {
      FirstOfReads(q, keys, v);
    }
  }

  // ---------------------------------------------------------------------------------------
  // The day change
  // ---------------------------------------------------------------------------------------

  predicate Near(x: real, y: real) { -0.005 <= x - y <= 0.005 }

  /** The numbers a quote brings; `previous` is the close of the previous session. */
  datatype Brought = Brought(price: real, change: Option<real>, percent: Option<real>, previous: Option<real>)

  /** A `close` counts as the previous one only if it is not today's price. */
  ghost predicate PreviousIs(q: Quote, previous: Option<real>, price: real) {
    exists direct, close ::
      && ReadsNumber(q, ["prev_close", "previous_close", "prevClose"], direct)
      && ReadsNumber(q, ["close", "c"], close)
      && previous == if direct.Some? then direct
                     else if close.Some? && close.value > 0.0 && !(-0.004 <= close.value - price <= 0.004) then close
                     else None
  }

  ghost predicate Brings(q: Quote, b: Brought, price: real) {
    && ReadsNumber(q, ["price", "ltp", "lp", "last_price", "lastPrice"], Some(b.price))
    && ReadsNumber(q, ["change", "net_change", "netChange"], b.change)
    && ReadsNumber(q, ["change_percent", "change_pct", "changePercent", "pct_change", "pc", "pChange"], b.percent)
    && PreviousIs(q, b.previous, price)
  }

  /** The three fields show these numbers, or are gone because the percentage is beyond 100. */
  ghost predicate Shows(r: Quote, change: real, percent: real, previous: real) {
    if -100.0 <= percent <= 100.0
    then Get(r, "change") == Num(change) && Get(r, "change_percent") == Num(percent) && Get(r, "prev_close") == Num(previous)
    else "change" !in r && "change_percent" !in r && "prev_close" !in r
  }

  /** The three fields are as they came, or gone because a percentage beyond 100 came. */
  ghost predicate Untouched(q: Quote, r: Quote) {
    match Get(q, "change_percent")
    case Num(x) =>
      if -100.0 <= x <= 100.0 then SameChange(q, r)
      else "change" !in r && "change_percent" !in r && "prev_close" !in r
    case _ => SameChange(q, r)
  }

  ghost predicate SameChange(q: Quote, r: Quote) {
    Get(r, "change") == Get(q, "change") && Get(r, "change_percent") == Get(q, "change_percent")
    && Get(r, "prev_close") == Get(q, "prev_close")
  }

  /** With the previous close known: what came is rounded, what did not is derived from it. */
  ghost predicate FromPrevious(r: Quote, b: Brought, price: real)
    requires b.previous.Some? && b.previous.value > 0.0
  {
    exists change, percent, previous, derived ::
      DerivedFrom(b, price, change, percent, previous, derived) && Shows(r, change, percent, previous)
  }

  predicate DerivedFrom(b: Brought, price: real, change: real, percent: real, previous: real, derived: real)
    requires b.previous.Some? && b.previous.value > 0.0
  {
    && Near(previous, b.previous.value) && Near(derived, price - b.previous.value)
    && (if b.change.Some? then Near(change, b.change.value) else change == derived)
    && Near(percent, if b.percent.Some? then b.percent.value else derived / b.previous.value * 100.0)
  }

  /** With only the percentage known: a previous close from which the price is that percentage away. */
  ghost predicate FromPercentage(r: Quote, b: Brought, price: real)
    requires b.percent.Some? && b.percent.value > -100.0
  {
    var growth := 1.0 + b.percent.value / 100.0;
    exists change, percent, previous ::
      AwayBy(b, price, growth, change, percent, previous) && Shows(r, change, percent, previous)
  }

  predicate AwayBy(b: Brought, price: real, growth: real, change: real, percent: real, previous: real)
    requires b.percent.Some? && growth > 0.0
  {
    && -0.005 * growth <= previous * growth - price <= 0.005 * growth
    && Near(change, if b.change.Some? then b.change.value else price - price / growth)
    && Near(percent, b.percent.value)
  }

  ghost predicate ChangeIs(q: Quote, r: Quote, b: Brought, price: real) {
    if b.previous.Some? && b.previous.value > 0.0 then FromPrevious(r, b, price)
    else if b.percent.Some? then
      if b.percent.value > -100.0 && price > 0.0 then FromPercentage(r, b, price) else Untouched(q, r)
    else if b.change.Some? then
      && (exists change :: Near(change, b.change.value) && Get(r, "change") == Num(change))
      && Get(r, "change_percent") == Get(q, "change_percent") && Get(r, "prev_close") == Get(q, "prev_close")
    else SameChange(q, r)
  }

  /** All keys but the prices and the day change are as they came. */
  ghost predicate OthersKept(q: Quote, r: Quote) {
    forall k :: k !in {"price", "ltp", "lp", "last_price", "change", "change_percent", "prev_close"} ==>
      (k in r <==> k in q) && Get(r, k) == Get(q, k)
  }

  ghost predicate PricesAre(r: Quote, price: real) {
    && Get(r, "price") == Num(price) && Get(r, "ltp") == Num(price)
    && Get(r, "lp") == Num(price) && Get(r, "last_price") == Num(price)
  }

  /** `r` is `q` with its price and its day change filled in; a quote without a positive price is left alone. */
  ghost predicate Completes(q: Quote, r: Quote) {
    if exists x :: x > 0.0 && ReadsNumber(q, ["price", "ltp", "lp", "last_price", "lastPrice"], Some(x))
    then exists b: Brought, price :: Brings(q, b, price) && Near(price, b.price)
                                     && PricesAre(r, price) && ChangeIs(q, r, b, price) && OthersKept(q, r)
    else r == q
  }

  // --- The enrichment does that ---

  /** What the enrichment reads, once it has written the prices. */
  function ReadFrom(q: Quote, price: real): Brought {
    Brought(if PriceOf(q).Some? then PriceOf(q).value else 0.0,
            SafeFloat(FirstOf(q, CHANGE_KEYS)), SafeFloat(FirstOf(q, PERCENT_KEYS)), PreviousClose(q, price))
  }

  lemma BringsWhatIsRead(q: Quote, price: real)
    requires PriceOf(q).Some?
    ensures Brings(q, ReadFrom(q, price), price)
  {
    NumberRead(q, PRICE_KEYS, PriceOf(q));
    NumberRead(q, CHANGE_KEYS, SafeFloat(FirstOf(q, CHANGE_KEYS)));
    NumberRead(q, PERCENT_KEYS, SafeFloat(FirstOf(q, PERCENT_KEYS)));
    NumberRead(q, PREVIOUS_KEYS, SafeFloat(FirstOf(q, PREVIOUS_KEYS)));
    NumberRead(q, CLOSE_KEYS, SafeFloat(FirstOf(q, CLOSE_KEYS)));
  }

  lemma PricingKeepsTheRest(q: Quote, price: real)
    ensures var out := Priced(q, price);
            && PricesAre(out, price) && OthersKept(q, out) && SameChange(q, out)
            && ReadFrom(out, price).(price := 0.0) == ReadFrom(q, price).(price := 0.0)
  {
    PricingKeepsKeys(q, price, CHANGE_KEYS);
    PricingKeepsKeys(q, price, PERCENT_KEYS);
    PricingKeepsKeys(q, price, PREVIOUS_KEYS);
    PricingKeepsKeys(q, price, CLOSE_KEYS);
  }

  lemma PricingKeepsKeys(q: Quote, price: real, keys: seq<string>)
    requires keys != [] && forall k :: k in keys ==> k !in {"price", "ltp", "lp", "last_price"}
    ensures FirstOf(Priced(q, price), keys) == FirstOf(q, keys)
  {
    FirstOfUnchanged(q, Priced(q, price), keys);
  }

  lemma DiscardedShows(out: Quote, change: real, percent: real, previous: real, r: Quote)
    requires Discarded(WithChange(out, change, percent, previous)) == Some(r)
    ensures Shows(r, change, percent, previous) && OthersKept(out, r)
    ensures forall price :: PricesAre(out, price) ==> PricesAre(r, price)
  {
  }

  lemma DiscardedUntouched(out: Quote, r: Quote)
    requires Discarded(out) == Some(r)
    ensures Untouched(out, r) && OthersKept(out, r)
    ensures forall price :: PricesAre(out, price) ==> PricesAre(r, price)
  {
  }

  lemma RoundNear(round: real -> real, x: real)
    requires IsRounding(round, HALF_CENT)
    ensures Near(round(x), x)
  {
  }

  /** What the branch that knows the previous close writes. */
  function ByPrevious(out: Quote, b: Brought, price: real, round: real -> real): Quote
    requires b.previous.Some? && b.previous.value > 0.0
  {
    var derived := round(price - b.previous.value);
    WithChange(out,
      if b.change.Some? then round(b.change.value) else derived,
      if b.percent.Some? then round(b.percent.value) else round(derived / b.previous.value * 100.0),
      round(b.previous.value))
  }

  lemma PreviousNumbers(b: Brought, price: real, ratio: real, round: real -> real)
    requires IsRounding(round, HALF_CENT) && b.previous.Some? && b.previous.value > 0.0
    requires ratio == round(price - b.previous.value) / b.previous.value * 100.0
    ensures DerivedFrom(b, price, if b.change.Some? then round(b.change.value) else round(price - b.previous.value),
                        if b.percent.Some? then round(b.percent.value) else round(ratio),
                        round(b.previous.value), round(price - b.previous.value))
  {
    RoundNear(round, price - b.previous.value);
    RoundNear(round, b.previous.value);
    RoundNear(round, ratio);
    RoundNear(round, if b.change.Some? then b.change.value else 0.0);
    RoundNear(round, if b.percent.Some? then b.percent.value else 0.0);
  }

  lemma PreviousBranch(out: Quote, r: Quote, b: Brought, price: real, round: real -> real)
    requires IsRounding(round, HALF_CENT) && b.previous.Some? && b.previous.value > 0.0
    requires Discarded(ByPrevious(out, b, price, round)) == Some(r)
    ensures FromPrevious(r, b, price)
    ensures OthersKept(out, r) && (PricesAre(out, price) ==> PricesAre(r, price))
  {
    var derived := round(price - b.previous.value);
    var ratio := derived / b.previous.value * 100.0;
    var change := if b.change.Some? then round(b.change.value) else derived;
    var percent := if b.percent.Some? then round(b.percent.value) else round(ratio);
    PreviousNumbers(b, price, ratio, round);
    DiscardedShows(out, change, percent, round(b.previous.value), r);
    ShownFromPrevious(r, b, price, change, percent, round(b.previous.value), derived);
  }

  lemma ShownFromPrevious(r: Quote, b: Brought, price: real, change: real, percent: real, previous: real, derived: real)
    requires b.previous.Some? && b.previous.value > 0.0
    requires DerivedFrom(b, price, change, percent, previous, derived) && Shows(r, change, percent, previous)
    ensures FromPrevious(r, b, price)
  {
  }

  lemma GrowthError(price: real, growth: real, previous: real)
    requires growth > 0.0 && Near(previous, price / growth)
    ensures -0.005 * growth <= previous * growth - price <= 0.005 * growth
  {
    assert (price / growth) * growth == price;
    assert (previous - price / growth) * growth == previous * growth - price;
    assert -0.005 * growth <= (previous - price / growth) * growth <= 0.005 * growth;
  }

  lemma PercentBranch(out: Quote, r: Quote, b: Brought, price: real, round: real -> real)
    requires IsRounding(round, HALF_CENT) && b.percent.Some? && price >= 0.0
    requires Discarded(FromPercent(out, price, b.change, b.percent.value, round)) == Some(r)
    ensures if b.percent.value > -100.0 && price > 0.0 then FromPercentage(r, b, price) else Untouched(out, r)
    ensures OthersKept(out, r) && (PricesAre(out, price) ==> PricesAre(r, price))
  {
    var growth := 1.0 + b.percent.value / 100.0;
    assert growth > 0.0 <==> b.percent.value > -100.0;
    if growth > 0.0 {
      QuotientSign(price, growth);
    }
    if growth > 0.0 && price > 0.0 {
      PercentShows(out, r, b, price, growth, price / growth, round);
    } else {
      DiscardedUntouched(out, r);
    }
  }

  lemma QuotientSign(price: real, growth: real)
    requires growth > 0.0
    ensures price / growth > 0.0 <==> price > 0.0
  {
  }

  lemma PercentShows(out: Quote, r: Quote, b: Brought, price: real, growth: real, base: real, round: real -> real)
    requires IsRounding(round, HALF_CENT) && b.percent.Some?
    requires growth == 1.0 + b.percent.value / 100.0 && growth > 0.0 && base == price / growth
    requires Discarded(WithChange(out, round(if b.change.Some? then b.change.value else price - base),
                                  round(b.percent.value), round(base))) == Some(r)
    ensures FromPercentage(r, b, price)
    ensures OthersKept(out, r) && (PricesAre(out, price) ==> PricesAre(r, price))
  {
    var change := round(if b.change.Some? then b.change.value else price - base);
    PercentNumbers(b, price, growth, base, round);
    DiscardedShows(out, change, round(b.percent.value), round(base), r);
    ShownFromPercentage(r, b, price, growth, change, round(b.percent.value), round(base));
  }

  lemma PercentNumbers(b: Brought, price: real, growth: real, base: real, round: real -> real)
    requires IsRounding(round, HALF_CENT) && b.percent.Some? && growth > 0.0 && base == price / growth
    ensures AwayBy(b, price, growth, round(if b.change.Some? then b.change.value else price - base),
                   round(b.percent.value), round(base))
  {
    RoundNear(round, base);
    RoundNear(round, if b.change.Some? then b.change.value else price - base);
    RoundNear(round, b.percent.value);
    GrowthError(price, growth, round(base));
  }

  lemma ShownFromPercentage(r: Quote, b: Brought, price: real, growth: real, change: real, percent: real, previous: real)
    requires b.percent.Some? && b.percent.value > -100.0 && growth == 1.0 + b.percent.value / 100.0 && growth > 0.0
    requires AwayBy(b, price, growth, change, percent, previous) && Shows(r, change, percent, previous)
    ensures FromPercentage(r, b, price)
  {
  }

  /** MAIN: the enrichment completes a quote. */
  lemma EnrichedCompletes(q: Quote, r: Quote, round: real -> real)
    requires IsRounding(round, HALF_CENT) && OnGrid(round, 0.0) && Enriched(q, round) == Some(r)
    ensures Completes(q, r)
  {
    forall x ensures ReadsNumber(q, ["price", "ltp", "lp", "last_price", "lastPrice"], Some(x)) <==> PriceOf(q) == Some(x) {
      NumberRead(q, PRICE_KEYS, Some(x));
    }
    if HasPrice(q) {
      assert ReadsNumber(q, ["price", "ltp", "lp", "last_price", "lastPrice"], Some(PriceOf(q).value));
      var price := round(PriceOf(q).value);
      var out, b := Priced(q, price), ReadFrom(q, price);
      assert price >= round(0.0);
      RoundNear(round, PriceOf(q).value);
      BringsWhatIsRead(q, price);
      PricingKeepsTheRest(q, price);
      CompletesByCases(q, out, r, b, price, round);
    }
  }

  lemma CompletesByCases(q: Quote, out: Quote, r: Quote, b: Brought, price: real, round: real -> real)
    requires IsRounding(round, HALF_CENT) && price >= 0.0 && HasPrice(q) && q != map[]
    requires Enriched(q, round) == Some(r) && price == round(PriceOf(q).value) && out == Priced(q, price)
    requires b == ReadFrom(q, price) && ReadFrom(out, price).(price := 0.0) == b.(price := 0.0)
    requires PricesAre(out, price) && OthersKept(q, out) && SameChange(q, out)
    ensures PricesAre(r, price) && ChangeIs(q, r, b, price) && OthersKept(q, r)
  {
    EnrichedUnfolds(q, out, b, price, round);
    if b.previous.Some? && b.previous.value > 0.0 {
      PreviousBranch(out, r, b, price, round);
    } else if b.percent.Some? {
      PercentBranch(out, r, b, price, round);
      UntouchedFrom(q, out, r);
    } else if b.change.Some? {
      RoundNear(round, b.change.value);
    }
  }

  lemma UntouchedFrom(q: Quote, out: Quote, r: Quote)
    requires SameChange(q, out)
    ensures Untouched(out, r) ==> Untouched(q, r)
  {
  }

  /** The enrichment, with the numbers it reads given names. */
  lemma EnrichedUnfolds(q: Quote, out: Quote, b: Brought, price: real, round: real -> real)
    requires HasPrice(q) && q != map[] && price == round(PriceOf(q).value) && out == Priced(q, price)
    requires b == ReadFrom(q, price) && ReadFrom(out, price).(price := 0.0) == b.(price := 0.0)
    ensures Enriched(q, round) ==
            if b.previous.Some? && b.previous.value > 0.0 then Discarded(ByPrevious(out, b, price, round))
            else if b.percent.Some? then Discarded(FromPercent(out, price, b.change, b.percent.value, round))
            else if b.change.Some? then Some(out["change" := Num(round(b.change.value))])
            else Some(out)
  {
  }

  /** MAIN: the enrichment raises exactly when it leaves a textual percentage in place: a priced quote without a
      previous close whose percentage reads as -100 or less, or whose price rounds to zero. */
  lemma RaisesExactlyIf(q: Quote, b: Brought, price: real, round: real -> real)
    requires IsRounding(round, HALF_CENT) && OnGrid(round, 0.0) && Brings(q, b, price) && price == round(b.price)
    ensures Enriched(q, round).None? <==>
            && b.price > 0.0 && !(b.previous.Some? && b.previous.value > 0.0)
            && b.percent.Some? && (b.percent.value <= -100.0 || price <= 0.0)
            && Get(q, "change_percent").Str?
  {
    BringsIsRead(q, b, price);
    if HasPrice(q) {
      var out := Priced(q, price);
      PricingKeepsTheRest(q, price);
      EnrichedUnfolds(q, out, b, price, round);
      RaisesByCases(out, b, price, round);
      assert Get(out, "change_percent") == Get(q, "change_percent");
    }
  }

  lemma RaisesByCases(out: Quote, b: Brought, price: real, round: real -> real)
    ensures b.previous.Some? && b.previous.value > 0.0 ==> Discarded(ByPrevious(out, b, price, round)).Some?
    ensures b.percent.Some? ==>
              (Discarded(FromPercent(out, price, b.change, b.percent.value, round)).None? <==>
               (b.percent.value <= -100.0 || price <= 0.0) && Get(out, "change_percent").Str?)
  {
    if b.previous.Some? && b.previous.value > 0.0 {
      DiscardedRaises(ByPrevious(out, b, price, round));
    }
    if b.percent.Some? {
      PercentRaises(out, price, b.change, b.percent.value, round);
    }
  }

  lemma DiscardedRaises(q: Quote)
    ensures Discarded(q).None? <==> Get(q, "change_percent").Str?
  {
  }

  lemma PercentRaises(out: Quote, price: real, change: Option<real>, percent: real, round: real -> real)
    ensures Discarded(FromPercent(out, price, change, percent, round)).None? <==>
            (percent <= -100.0 || price <= 0.0) && Get(out, "change_percent").Str?
  {
    if percent > -100.0 {
      QuotientSign(price, 1.0 + percent / 100.0);
    }
    DiscardedRaises(FromPercent(out, price, change, percent, round));
  }

  /** What a quote brings is determined. */
  lemma BringsIsRead(q: Quote, b: Brought, price: real)
    requires Brings(q, b, price)
    ensures b == ReadFrom(q, price) && PriceOf(q) == Some(b.price)
  {
    NumberRead(q, PRICE_KEYS, Some(b.price));
    NumberRead(q, CHANGE_KEYS, b.change);
    NumberRead(q, PERCENT_KEYS, b.percent);
    PreviousIsRead(q, b.previous, price);
  }

  lemma PreviousIsRead(q: Quote, previous: Option<real>, price: real)
    requires PreviousIs(q, previous, price)
    ensures previous == PreviousClose(q, price)
  {
    forall x ensures ReadsNumber(q, PREVIOUS_KEYS, x) <==> x == SafeFloat(FirstOf(q, PREVIOUS_KEYS)) {
      NumberRead(q, PREVIOUS_KEYS, x);
    }
    forall x ensures ReadsNumber(q, CLOSE_KEYS, x) <==> x == SafeFloat(FirstOf(q, CLOSE_KEYS)) {
      NumberRead(q, CLOSE_KEYS, x);
    }
  }

  // ---------------------------------------------------------------------------------------
  // What the writers store
  // ---------------------------------------------------------------------------------------

  /** Under `key` the live entry holds the tick, completed if the market is closed, for 24 hours or else 120 s,
      and the last price holds the live entry, completed. */
  ghost predicate StoredFrom(s: Store, key: string, q: Quote, closed: bool, now: real) {
    && key in s.price && key in s.lastPrice
    && s.price[key].expireAt == now + (if closed then 86400.0 else 120.0)
    && (if closed then Completes(q, s.price[key].quote) else s.price[key].quote == q)
    && Completes(s.price[key].quote, s.lastPrice[key])
  }

  lemma {:induction false} ApplyAllLast(s: Store, ws: seq<Write>, expireAt: real, i: nat)
    requires i < |ws| && forall j :: i < j < |ws| ==> ws[j].symbol != ws[i].symbol
    ensures var s', key := ApplyAll(s, ws, expireAt), ws[i].symbol;
            && key in s'.price && s'.price[key] == Entry(ws[i].payload, expireAt)
            && key in s'.lastPrice && s'.lastPrice[key] == ws[i].last
  {
    if i < |ws| - 1 {
      ApplyAllLast(s, ws[..|ws| - 1], expireAt, i);
    }
  }

  /** MAIN: the three tick writers.  A batch of quotes, if none of them raises, stores each key's last quote that
      way and touches no other key; if one raises nothing is stored at all. */
  lemma WritersStore(s: Store, quotes: seq<(string, Quote)>, closed: bool, now: real, round: real -> real, i: nat)
    requires IsRounding(round, HALF_CENT) && OnGrid(round, 0.0)
    requires i < |quotes| && forall j :: i < j < |quotes| ==> quotes[j].0 != quotes[i].0
    ensures var s' := Step(s, SetBatch(quotes, closed, now), round);
            if PreparedAll(quotes, closed, round).Some? then StoredFrom(s', quotes[i].0, quotes[i].1, closed, now)
            else s' == s
  {
    var all := PreparedAll(quotes, closed, round);
    if all.Some? {
      PreparedSymbols(quotes, closed, round);
      var ws := all.value;
      ApplyAllLast(s, ws, now + Ttl(closed), i);
      PreparedCompletes(quotes[i].0, quotes[i].1, closed, round, ws[i]);
    }
  }

  lemma PreparedCompletes(symbol: string, q: Quote, closed: bool, round: real -> real, w: Write)
    requires IsRounding(round, HALF_CENT) && OnGrid(round, 0.0) && Prepared(symbol, q, closed, round) == Some(w)
    ensures if closed then Completes(q, w.payload) else w.payload == q
    ensures Completes(w.payload, w.last)
  {
    EnrichedCompletes(w.payload, w.last, round);
    if closed {
      EnrichedCompletes(q, w.payload, round);
    }
  }

  /** A single write, and a mirrored one, are batches: of one quote, and of the canonical quote followed by a copy
      under each mirror that differs from it in symbol and name only. */
  lemma WritersAreBatches(s: Store, c: string, q: Quote, mirrors: seq<string>, closed: bool, now: real,
                          round: real -> real, i: nat)
    requires i < |MirrorQuotes(c, q, mirrors)|
    ensures Step(s, SetPrice(c, q, closed, now), round) == Step(s, SetBatch([(c, q)], closed, now), round)
    ensures Step(s, SetMirrored(c, q, mirrors, closed, now), round) ==
            Step(s, SetBatch(MirrorQuotes(c, q, mirrors), closed, now), round)
    ensures MirrorQuotes(c, q, mirrors)[0] == (c, q)
    ensures var (symbol, copy) := MirrorQuotes(c, q, mirrors)[i];
            && (symbol == c ==> copy == q)
            && (symbol != c ==>
                  && symbol in mirrors && symbol != ""
                  && copy == q["symbol" := Str(symbol, None)]["name" := Str(BaseName(symbol), None)])
  {
    MirrorCopies(c, q, mirrors);
  }

  lemma {:induction false} MirrorCopies(c: string, q: Quote, mirrors: seq<string>)
    ensures MirrorQuotes(c, q, mirrors) != [] && MirrorQuotes(c, q, mirrors)[0] == (c, q)
    ensures forall i :: 0 <= i < |MirrorQuotes(c, q, mirrors)| ==>
              var (symbol, copy) := MirrorQuotes(c, q, mirrors)[i];
              && copy == MirrorQuote(q, c, symbol) && (symbol == c || (symbol in mirrors && symbol != ""))
  {
    if mirrors != [] {
      MirrorCopies(c, q, mirrors[..|mirrors| - 1]);
    }
  }

  /** `r` marks `q` as the official close of the session. */
  ghost predicate MarksClose(q: Quote, marked: Quote, now: real) {
    && Get(marked, "source") == Str("official_eod_close", None)
    && Get(marked, "official") == Flag(true) && Get(marked, "frozen") == Flag(true)
    && Get(marked, "source_detail") == (if Falsy(Get(q, "source")) then Str("official_eod_close", None) else Get(q, "source"))
    && Get(marked, "market_session") == (if Falsy(Get(q, "market_session")) then Str("closed", None) else Get(q, "market_session"))
    && Get(marked, "frozen_at") == (if Falsy(Get(q, "frozen_at")) then Num(now) else Get(q, "frozen_at"))
    && Get(marked, "official_close") == (if Falsy(Get(q, "official_close")) then Get(q, "price") else Get(q, "official_close"))
    && Get(marked, "official_close_timestamp") ==
       (if Falsy(Get(q, "official_close_timestamp")) then Get(q, "timestamp") else Get(q, "official_close_timestamp"))
    && forall k :: k !in CLOSE_MARKS ==> Get(marked, k) == Get(q, k)
  }

  const CLOSE_MARKS := {
    "source", "source_detail", "market_session", "official", "frozen", "frozen_at", "official_close",
    "official_close_timestamp"}

  /** The close is stored as completed, but with its price and its official close rounded. */
  ghost predicate RoundsClose(completed: Quote, r: Quote) {
    && (forall k :: k !in {"price", "ltp", "lp", "last_price", "official_close"} ==> Get(r, k) == Get(completed, k))
    && RoundedField(Get(completed, "official_close"), Get(r, "official_close"))
    && RoundedField(Get(completed, "price"), Get(r, "price"))
    && (SafeFloat(Get(completed, "price")).Some? ==>
          Get(r, "ltp") == Get(r, "price") && Get(r, "lp") == Get(r, "price") && Get(r, "last_price") == Get(r, "price"))
  }

  ghost predicate RoundedField(v: Value, w: Value) {
    match v
    case Nil => w == v
    case Num(x) => w.Num? && Near(w.amount, x)
    case Flag(b) => w.Num? && Near(w.amount, if b then 1.0 else 0.0)
    case Str(_, number) => if number.Some? then w.Num? && Near(w.amount, number.value) else w == v
  }

  /** MAIN: the official close.  Both keys hold the marked, completed and rounded quote, the live one for
      24 hours, unless the enrichment raises, which leaves everything as it was; other keys stay. */
  lemma CloseStores(s: Store, symbol: string, q: Quote, now: real, round: real -> real)
    returns (marked: Quote, completed: Quote)
    requires IsRounding(round, HALF_CENT) && OnGrid(round, 0.0)
    ensures MarksClose(q, marked, now)
    ensures var s' := Step(s, SetClose(symbol, q, now), round);
            if Enriched(marked, round).None? then s' == s
            else Completes(marked, completed) && HoldsClose(s, s', symbol, completed, now)
  {
    CloseQuoteMarks(q, now);
    marked := CloseQuote(q, now);
    completed := CloseOf(s, symbol, q, now, round, marked);
  }

  lemma CloseOf(s: Store, symbol: string, q: Quote, now: real, round: real -> real, marked: Quote)
    returns (completed: Quote)
    requires IsRounding(round, HALF_CENT) && OnGrid(round, 0.0) && marked == CloseQuote(q, now)
    ensures var s' := Step(s, SetClose(symbol, q, now), round);
            if Enriched(marked, round).None? then s' == s
            else Completes(marked, completed) && HoldsClose(s, s', symbol, completed, now)
  {
    CloseWrites(s, symbol, q, now, round, marked);
    completed := marked;
    if Enriched(marked, round).Some? {
      completed := Completed(s, symbol, now, round, marked);
    }
  }

  lemma Completed(s: Store, symbol: string, now: real, round: real -> real, marked: Quote) returns (completed: Quote)
    requires IsRounding(round, HALF_CENT) && OnGrid(round, 0.0) && Enriched(marked, round).Some?
    ensures Some(completed) == Enriched(marked, round) && Completes(marked, completed)
    ensures var payload := ClosePayload(completed, round);
            HoldsClose(s, Store(s.price[symbol := Entry(payload, now + 86400.0)], s.lastPrice[symbol := payload]),
                       symbol, completed, now)
  {
    completed := Enriched(marked, round).value;
    EnrichedCompletes(marked, completed, round);
    ClosePayloadRounds(completed, round);
    PayloadHeld(s, symbol, completed, now, ClosePayload(completed, round));
  }

  lemma CloseWrites(s: Store, symbol: string, q: Quote, now: real, round: real -> real, marked: Quote)
    requires marked == CloseQuote(q, now)
    ensures Step(s, SetClose(symbol, q, now), round) ==
            if Enriched(marked, round).None? then s
            else
              var payload := ClosePayload(Enriched(marked, round).value, round);
              Store(s.price[symbol := Entry(payload, now + 86400.0)], s.lastPrice[symbol := payload])
  {
  }

  /** Nothing but `symbol` changed from `s` to `s'`, and it holds the rounded close under both keys. */
  ghost predicate HoldsClose(s: Store, s': Store, symbol: string, completed: Quote, now: real) {
    && symbol in s'.price && symbol in s'.lastPrice
    && s'.price[symbol].expireAt == now + 86400.0
    && RoundsClose(completed, s'.price[symbol].quote) && s'.lastPrice[symbol] == s'.price[symbol].quote
    && s' == Store(s.price[symbol := s'.price[symbol]], s.lastPrice[symbol := s'.lastPrice[symbol]])
  }

  lemma PayloadHeld(s: Store, symbol: string, completed: Quote, now: real, payload: Quote)
    requires RoundsClose(completed, payload)
    ensures HoldsClose(s, Store(s.price[symbol := Entry(payload, now + 86400.0)], s.lastPrice[symbol := payload]),
                       symbol, completed, now)
  {
  }

  lemma CloseQuoteMarks(q: Quote, now: real)
    ensures MarksClose(q, CloseQuote(q, now), now)
  {
    forall k | k !in CLOSE_MARKS ensures Get(CloseQuote(q, now), k) == Get(q, k) {
      assert k != "source" && k != "source_detail" && k != "market_session" && k != "official" && k != "frozen";
      assert k != "frozen_at" && k != "official_close" && k != "official_close_timestamp";
    }
  }

  lemma RoundedIsNear(v: Value, round: real -> real)
    requires IsRounding(round, HALF_CENT)
    ensures RoundedField(v, Rounded(v, round))
  {
    if SafeFloat(v).Some? {
      RoundNear(round, SafeFloat(v).value);
    }
  }

  lemma ClosePayloadRounds(completed: Quote, round: real -> real)
    requires IsRounding(round, HALF_CENT)
    ensures RoundsClose(completed, ClosePayload(completed, round))
  {
    var v, price := Get(completed, "official_close"), Get(completed, "price");
    var closed := if "official_close" in completed then completed["official_close" := Rounded(v, round)] else completed;
    RoundedIsNear(v, round);
    RoundedIsNear(price, round);
    assert Get(closed, "official_close") == Rounded(v, round);
    assert forall k :: k != "official_close" ==> Get(closed, k) == Get(completed, k);
    if SafeFloat(price).Some? {
      PricedIs(closed, round(SafeFloat(price).value));
    }
  }

  lemma PricedIs(q: Quote, price: real)
    ensures PricesAre(Priced(q, price), price)
    ensures forall k :: k !in {"price", "ltp", "lp", "last_price"} ==> Get(Priced(q, price), k) == Get(q, k)
  {
  }

  /** MAIN: a read answers with the first of its keys whose entry has not reached its expiry. */
  lemma {:induction false} ReadsFirstLive(s: Store, keys: seq<string>, now: real)
    ensures FirstFound(s, keys, now).None? <==>
            forall i :: 0 <= i < |keys| ==> !(keys[i] in s.price && now < s.price[keys[i]].expireAt)
    ensures FirstFound(s, keys, now).Some? ==>
              exists i :: 0 <= i < |keys| && keys[i] in s.price && now < s.price[keys[i]].expireAt
                          && FirstFound(s, keys, now) == Some(s.price[keys[i]].quote)
                          && forall j :: 0 <= j < i ==> !(keys[j] in s.price && now < s.price[keys[j]].expireAt)
  {
    if keys != [] {
      var rest := keys[1..];
      assert forall j :: 1 <= j < |keys| ==> keys[j] == rest[j - 1];
      ReadsFirstLive(s, rest, now);
      if Fetch(s, keys[0], now).None? && FirstFound(s, rest, now).Some? {
        var i :| 0 <= i < |rest| && rest[i] in s.price && now < s.price[rest[i]].expireAt
                 && FirstFound(s, rest, now) == Some(s.price[rest[i]].quote)
                 && forall j :: 0 <= j < i ==> !(rest[j] in s.price && now < s.price[rest[j]].expireAt);
        assert keys[i + 1] == rest[i];
      }
    }
  }
}
