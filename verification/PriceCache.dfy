/** The price cache of backend/cache/redis_client.py: its four writers, the day-change enrichment
that every stored payload goes through, and the alias-aware read.  Two-digit rounding is an
arbitrary function: nothing here depends on what it does. */
module PriceCache {
  import opened Basics
  import opened Text
  import opened SymbolMap

  /** A JSON value; for a text, `number` is what `float` makes of it. */
  datatype Value = Nil | Num(amount: real) | Flag(bool) | Str(text: string, number: Option<real>)

  type Quote = map<string, Value>

  function Get(q: Quote, key: string): Value { if key in q then q[key] else Nil }

  predicate Truthy(v: Value) {
    match v
    case Nil => false
    case Num(x) => x != 0.0
    case Flag(b) => b
    case Str(text, _) => text != ""
  }

  /** `q.get(k0) or q.get(k1) or ...`: the first truthy value, else the last one. */
  function FirstOf(q: Quote, keys: seq<string>): Value
    requires keys != []
  {
    if |keys| == 1 || Truthy(Get(q, keys[0])) then Get(q, keys[0]) else FirstOf(q, keys[1..])
  }

  /** `_safe_float`. */
  function SafeFloat(v: Value): Option<real> {
    match v
    case Nil => None
    case Num(x) => Some(x)
    case Flag(b) => Some(if b then 1.0 else 0.0)
    case Str(_, number) => number
  }

  function Abs(x: real): real { if x < 0.0 then -x else x }

  // ---------------------------------------------------------------------------------------
  // Enrichment
  // ---------------------------------------------------------------------------------------

  const PRICE_KEYS := ["price", "ltp", "lp", "last_price", "lastPrice"]
  const CHANGE_KEYS := ["change", "net_change", "netChange"]
  const PERCENT_KEYS := ["change_percent", "change_pct", "changePercent", "pct_change", "pc", "pChange"]
  const PREVIOUS_KEYS := ["prev_close", "previous_close", "prevClose"]
  const CLOSE_KEYS := ["close", "c"]

  const MAX_PLAUSIBLE := 100.0

  function PriceOf(q: Quote): Option<real> { SafeFloat(FirstOf(q, PRICE_KEYS)) }

  function Priced(q: Quote, price: real): Quote {
    q["price" := Num(price)]["ltp" := Num(price)]["lp" := Num(price)]["last_price" := Num(price)]
  }

  function PreviousClose(q: Quote, price: real): Option<real> {
    var previous := SafeFloat(FirstOf(q, PREVIOUS_KEYS));
    if previous.Some? then previous
    else
      var close := SafeFloat(FirstOf(q, CLOSE_KEYS));
      if close.Some? && close.value > 0.0 && Abs(close.value - price) > 0.004 then close else None
  }

  function WithChange(q: Quote, change: real, percent: real, previous: real): Quote {
    q["change" := Num(change)]["change_percent" := Num(percent)]["prev_close" := Num(previous)]
  }

  /** `_discard_implausible_change`; None when taking `abs` of a text raises. */
  function Discarded(q: Quote): Option<Quote> {
    match Get(q, "change_percent")
    case Str(_, _) => None
    case Num(x) => Some(if Abs(x) > MAX_PLAUSIBLE then q - {"change", "change_percent", "prev_close"} else q)
    case _ => Some(q)
  }

  /** Both branches that derive the previous close from the percentage. */
  function FromPercent(q: Quote, price: real, change: Option<real>, percent: real, round: real -> real): Quote {
    var denominator := 1.0 + percent / 100.0;
    if denominator > 0.0 && price / denominator > 0.0 then
      var previous := price / denominator;
      WithChange(q, round(if change.Some? then change.value else price - previous), round(percent), round(previous))
    else q
  }

  /** `_enrich_frozen_day_change_payload`; None when it raises. */
  function Enriched(q: Quote, round: real -> real): Option<Quote> {
    if q == map[] || PriceOf(q).None? || PriceOf(q).value <= 0.0 then Some(q)
    else
      var price := round(PriceOf(q).value);
      var out := Priced(q, price);
      var change := SafeFloat(FirstOf(out, CHANGE_KEYS));
      var percent := SafeFloat(FirstOf(out, PERCENT_KEYS));
      var previous := PreviousClose(out, price);
      if previous.Some? && previous.value > 0.0 then
        var derived := round(price - previous.value);
        Discarded(WithChange(out,
          if change.Some? then round(change.value) else derived,
          if percent.Some? then round(percent.value) else round(derived / previous.value * 100.0),
          round(previous.value)))
      else if percent.Some? then Discarded(FromPercent(out, price, change, percent.value, round))
      else if change.Some? then Some(out["change" := Num(round(change.value))])
      else Some(out)
  }

  predicate Plausible(q: Quote) {
    match Get(q, "change_percent")
    case Num(x) => Abs(x) <= MAX_PLAUSIBLE
    case _ => true
  }

  predicate HasPrice(q: Quote) { PriceOf(q).Some? && PriceOf(q).value > 0.0 }

  lemma DiscardedIsPlausible(q: Quote)
    requires Discarded(q).Some?
    ensures Plausible(Discarded(q).value)
  {
  }

  /** A percentage that no key provides is not a nonzero number under its own key. */
  lemma NoPercentIsPlausible(q: Quote)
    requires SafeFloat(FirstOf(q, PERCENT_KEYS)).None?
    ensures Plausible(q)
  {
  }

  /** MAIN: through every derivation branch.  What the enrichment returns is plausible if and only
      if the quote has a positive price or was plausible already. */
  lemma EnrichedIsPlausibleIff(q: Quote, round: real -> real)
    requires Enriched(q, round).Some?
    ensures Plausible(Enriched(q, round).value) <==> HasPrice(q) || Plausible(q)
  {
    if q != map[] && HasPrice(q) {
      var price := round(PriceOf(q).value);
      var out := Priced(q, price);
      var change := SafeFloat(FirstOf(out, CHANGE_KEYS));
      var percent := SafeFloat(FirstOf(out, PERCENT_KEYS));
      var previous := PreviousClose(out, price);
      if previous.Some? && previous.value > 0.0 {
        var derived := round(price - previous.value);
        DiscardedIsPlausible(WithChange(out,
          if change.Some? then round(change.value) else derived,
          if percent.Some? then round(percent.value) else round(derived / previous.value * 100.0),
          round(previous.value)));
      } else if percent.Some? {
        DiscardedIsPlausible(FromPercent(out, price, change, percent.value, round));
      } else {
        NoPercentIsPlausible(out);
      }
    }
  }

  // ---------------------------------------------------------------------------------------
  // The store and its writers
  // ---------------------------------------------------------------------------------------

  const PRICE_TTL := 120.0
  const PRICE_TTL_CLOSED := 86400.0

  function Ttl(closed: bool): real { if closed then PRICE_TTL_CLOSED else PRICE_TTL }

  /** The live entry expires; the last tradable price does not. */
  datatype Entry = Entry(quote: Quote, expireAt: real)

  datatype Store = Store(price: map<string, Entry>, lastPrice: map<string, Quote>)

  /** One line of a pipeline: what goes under the price key and under the last-price key. */
  datatype Write = Write(symbol: string, payload: Quote, last: Quote)

  /** When the market is closed the payload is enriched. */
  function StoredAs(q: Quote, closed: bool, round: real -> real): Option<Quote> {
    if closed then Enriched(q, round) else Some(q)
  }

  /** The last price is always enriched. */
  function Prepared(symbol: string, q: Quote, closed: bool, round: real -> real): Option<Write> {
    var payload := StoredAs(q, closed, round);
    if payload.None? then None
    else
      var last := Enriched(payload.value, round);
      if last.None? then None else Some(Write(symbol, payload.value, last.value))
  }

  function PreparedAll(quotes: seq<(string, Quote)>, closed: bool, round: real -> real): Option<seq<Write>> {
    if quotes == [] then Some([])
    else
      var before := PreparedAll(quotes[..|quotes| - 1], closed, round);
      var (symbol, q) := quotes[|quotes| - 1];
      var w := Prepared(symbol, q, closed, round);
      if before.None? || w.None? then None else Some(before.value + [w.value])
  }

  function Apply(s: Store, w: Write, expireAt: real): Store {
    Store(s.price[w.symbol := Entry(w.payload, expireAt)], s.lastPrice[w.symbol := w.last])
  }

  function ApplyAll(s: Store, ws: seq<Write>, expireAt: real): Store {
    if ws == [] then s else Apply(ApplyAll(s, ws[..|ws| - 1], expireAt), ws[|ws| - 1], expireAt)
  }

  /** What a batch of quotes does; an exception anywhere leaves the store alone. */
  function Written(s: Store, quotes: seq<(string, Quote)>, closed: bool, now: real, round: real -> real): Store {
    var ws := PreparedAll(quotes, closed, round);
    if ws.None? then s else ApplyAll(s, ws.value, now + Ttl(closed))
  }

  /** The payload of a mirror differs from the canonical one in its symbol and name only. */
  function MirrorQuote(q: Quote, canonical: string, symbol: string): Quote {
    if symbol == canonical then q
    else q["symbol" := Str(symbol, None)]["name" := Str(BaseName(symbol), None)]
  }

  function MirrorQuotes(canonical: string, q: Quote, mirrors: seq<string>): seq<(string, Quote)> {
    if mirrors == [] then [(canonical, q)]
    else
      var before, m := MirrorQuotes(canonical, q, mirrors[..|mirrors| - 1]), mirrors[|mirrors| - 1];
      if m == "" || m == canonical then before else before + [(m, MirrorQuote(q, canonical, m))]
  }

  function Or(v: Value, default: Value): Value { if Truthy(v) then v else default }

  function Rounded(v: Value, round: real -> real): Value {
    if SafeFloat(v).Some? then Num(round(SafeFloat(v).value)) else v
  }

  /** The payload of `set_authoritative_close` before enrichment. */
  function CloseQuote(q: Quote, now: real): Quote {
    var source := Str("official_eod_close", None);
    q["source" := source]
     ["source_detail" := Or(Get(q, "source"), source)]
     ["market_session" := Or(Get(q, "market_session"), Str("closed", None))]
     ["official" := Flag(true)]["frozen" := Flag(true)]
     ["frozen_at" := Or(Get(q, "frozen_at"), Num(now))]
     ["official_close" := Or(Get(q, "official_close"), Get(q, "price"))]
     ["official_close_timestamp" := Or(Get(q, "official_close_timestamp"), Get(q, "timestamp"))]
  }

  /** The rounding `set_authoritative_close` applies after enrichment. */
  function ClosePayload(q: Quote, round: real -> real): Quote {
    var closed := if "official_close" in q then q["official_close" := Rounded(q["official_close"], round)] else q;
    var price := Get(closed, "price");
    if SafeFloat(price).Some? then Priced(closed, round(SafeFloat(price).value)) else closed
  }

  function AfterClose(s: Store, symbol: string, q: Quote, now: real, round: real -> real): Store {
    var enriched := Enriched(CloseQuote(q, now), round);
    if enriched.None? then s
    else
      var payload := ClosePayload(enriched.value, round);
      Apply(s, Write(symbol, payload, payload), now + PRICE_TTL_CLOSED)
  }

  // ---------------------------------------------------------------------------------------
  // Reading
  // ---------------------------------------------------------------------------------------

  /** `_symbol_aliases`; its fallback list is never reached. */
  function Aliases(symbol: string): seq<string> {
    if Normalize(symbol) == "" then [] else LookupOrder(Normalize(symbol), TABLES, COMMODITIES)
  }

  function Fetch(s: Store, key: string, now: real): Option<Quote> {
    if key in s.price && now < s.price[key].expireAt then Some(s.price[key].quote) else None
  }

  /** The first key with a live entry. */
  function FirstFound(s: Store, keys: seq<string>, now: real): Option<Quote> {
    if keys == [] then None
    else if Fetch(s, keys[0], now).Some? then Fetch(s, keys[0], now)
    else FirstFound(s, keys[1..], now)
  }

  class Cache {
    var price: map<string, Entry>
    var lastPrice: map<string, Quote>
    const round: real -> real

    ghost function Contents(): Store
      reads this
    {
      Store(price, lastPrice)
    }

    constructor (round: real -> real)
      ensures Contents() == Store(map[], map[]) && this.round == round
    {
      price, lastPrice := map[], map[];
      this.round := round;
    }

    /** Builds a pipeline in a loop and executes it only if no payload raised. */
    method WriteAll(quotes: seq<(string, Quote)>, closed: bool, now: real) returns (ok: bool)
      modifies this
      ensures ok == PreparedAll(quotes, closed, round).Some?
      ensures Contents() == old(Written(Contents(), quotes, closed, now, round))
    {
      var pipe: seq<Write> := [];
      for n := 0 to |quotes|
        invariant Contents() == old(Contents())
        invariant PreparedAll(quotes[..n], closed, round) == Some(pipe)
      {
        assert quotes[..n + 1][..n] == quotes[..n];
        var w := Prepared(quotes[n].0, quotes[n].1, closed, round);
        if w.None? {
          PreparedFails(quotes, n + 1, closed, round);
          return false;
        }
        pipe := pipe + [w.value];
      }
      assert quotes[..|quotes|] == quotes;
      for n := 0 to |pipe|
        invariant Contents() == ApplyAll(old(Contents()), pipe[..n], now + Ttl(closed))
      {
        assert pipe[..n + 1][..n] == pipe[..n];
        price := price[pipe[n].symbol := Entry(pipe[n].payload, now + Ttl(closed))];
        lastPrice := lastPrice[pipe[n].symbol := pipe[n].last];
      }
      assert pipe[..|pipe|] == pipe;
      return true;
    }

    method SetPrice(symbol: string, q: Quote, closed: bool, now: real) returns (ok: bool)
      modifies this
      ensures ok == Prepared(symbol, q, closed, round).Some?
      ensures Contents() == old(Written(Contents(), [(symbol, q)], closed, now, round))
    {
      assert [(symbol, q)][..0] == [];
      ok := WriteAll([(symbol, q)], closed, now);
    }

    method SetPricesMirrored(canonical: string, q: Quote, mirrors: seq<string>, closed: bool, now: real)
      returns (ok: bool)
      modifies this
      ensures ok == PreparedAll(MirrorQuotes(canonical, q, mirrors), closed, round).Some?
      ensures Contents() == Written(old(Contents()), MirrorQuotes(canonical, q, mirrors), closed, now, round)
    {
      var quotes := [(canonical, q)];
      for n := 0 to |mirrors|
        invariant Contents() == old(Contents())
        invariant quotes == MirrorQuotes(canonical, q, mirrors[..n])
      {
        assert mirrors[..n + 1][..n] == mirrors[..n];
        if mirrors[n] != "" && mirrors[n] != canonical {
          quotes := quotes + [(mirrors[n], MirrorQuote(q, canonical, mirrors[n]))];
        }
      }
      assert mirrors[..|mirrors|] == mirrors;
      ok := WriteAll(quotes, closed, now);
    }

    method SetPricesBatch(quotes: seq<(string, Quote)>, closed: bool, now: real) returns (ok: bool)
      modifies this
      ensures ok == (quotes != [] && PreparedAll(quotes, closed, round).Some?)
      ensures Contents() == old(Written(Contents(), quotes, closed, now, round))
    {
      if quotes == [] {
        return false;
      }
      ok := WriteAll(quotes, closed, now);
    }

    method SetAuthoritativeClose(symbol: string, q: Quote, now: real) returns (ok: bool)
      modifies this
      ensures ok == Enriched(CloseQuote(q, now), round).Some?
      ensures Contents() == old(AfterClose(Contents(), symbol, q, now, round))
    {
      var enriched := Enriched(CloseQuote(q, now), round);
      if enriched.None? {
        return false;
      }
      var payload := ClosePayload(enriched.value, round);
      price := price[symbol := Entry(payload, now + PRICE_TTL_CLOSED)];
      lastPrice := lastPrice[symbol := payload];
      return true;
    }

    method GetPrice(symbol: string, now: real) returns (r: Option<Quote>)
      ensures r == FirstFound(Contents(), Aliases(symbol), now)
    {
      var keys := [];
      if Normalize(symbol) != "" {
        keys := LookupKeys(Normalize(symbol), TABLES, COMMODITIES);
      }
      assert keys[0..] == keys;
      for n := 0 to |keys|
        invariant FirstFound(Contents(), keys, now) == FirstFound(Contents(), keys[n..], now)
      {
        assert keys[n..][0] == keys[n] && keys[n..][1..] == keys[n + 1..];
        if keys[n] in price && now < price[keys[n]].expireAt {
          return Some(price[keys[n]].quote);
        }
      }
      return None;
    }
  }

  lemma {:induction false} PreparedFails(quotes: seq<(string, Quote)>, n: nat, closed: bool, round: real -> real)
    requires n <= |quotes| && PreparedAll(quotes[..n], closed, round).None?
    ensures PreparedAll(quotes, closed, round).None?
    decreases |quotes| - n
  {
    if n < |quotes| {
      assert quotes[..n + 1][..n] == quotes[..n];
      PreparedFails(quotes, n + 1, closed, round);
    } else {
      assert quotes[..n] == quotes;
    }
  }
}
