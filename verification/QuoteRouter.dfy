/** Which quote wins: backend/market/quote_router.py, with the metadata enrichment of
backend/market/freshness_engine.py and the tiers of backend/market/symbol_priority_engine.py.
Times are seconds. */
module SymbolPriority {
  import opened Text

  datatype Tier = Hot | Warm | Cold

  function TierRank(tier: Tier): nat {
    match tier
    case Hot => 0
    case Warm => 1
    case Cold => 2
  }

  function EmitInterval(tier: Tier): real {
    match tier
    case Hot => 0.0
    case Warm => 0.25
    case Cold => 1.0
  }

  /** Seconds for which an unregistered symbol stays WARM after a touch. */
  const TOUCH_DECAY := 600.0

  datatype Priorities = Priorities(tiers: map<string, Tier>, lastTouch: map<string, real>)

  function Registered(p: Priorities, symbol: string, tier: Tier, now: real): Priorities {
    var sym := Normalize(symbol);
    if sym == "" then p
    else
      var better := sym !in p.tiers || TierRank(tier) < TierRank(p.tiers[sym]);
      Priorities(if better then p.tiers[sym := tier] else p.tiers, p.lastTouch[sym := now])
  }

  function Touched(p: Priorities, symbol: string, now: real): Priorities {
    var sym := Normalize(symbol);
    if sym == "" then p else p.(lastTouch := p.lastTouch[sym := now])
  }

  function TierOf(p: Priorities, symbol: string, now: real): Tier {
    var sym := Normalize(symbol);
    if sym == "" then Cold
    else if sym in p.tiers then p.tiers[sym]
    else if sym in p.lastTouch && p.lastTouch[sym] != 0.0 && now - p.lastTouch[sym] < TOUCH_DECAY then Warm
    else Cold
  }

  /** After a touch the symbol, in any spelling, reads its registered tier, or else WARM for exactly
      600 s and COLD from then on; other symbols read what they did before. */
  lemma TouchKeepsWarm(p: Priorities, symbol: string, at: real, other: string, now: real)
    requires Normalize(symbol) != "" && at != 0.0
    ensures TierOf(Touched(p, symbol, at), other, now) ==
            if Normalize(other) != Normalize(symbol) then TierOf(p, other, now)
            else if Normalize(symbol) in p.tiers then p.tiers[Normalize(symbol)]
            else if now < at + 600.0 then Warm else Cold
  {
  }

  /** Registering gives the better of the new and the registered tier, whatever was touched. */
  lemma RegisterGivesBetter(p: Priorities, symbol: string, tier: Tier, at: real, now: real)
    requires Normalize(symbol) != ""
    ensures var got := TierOf(Registered(p, symbol, tier, at), symbol, now);
            var sym := Normalize(symbol);
            if sym !in p.tiers then got == tier
            else if Hot in {tier, p.tiers[sym]} then got == Hot
            else if Warm in {tier, p.tiers[sym]} then got == Warm
            else got == Cold
    ensures forall other :: Normalize(other) != Normalize(symbol) ==>
              TierOf(Registered(p, symbol, tier, at), other, now) == TierOf(p, other, now)
  {
  }

  class SymbolPriorityEngine {
    var tiers: map<string, Tier>
    var lastTouch: map<string, real>

    ghost function Contents(): Priorities
      reads this
    {
      Priorities(tiers, lastTouch)
    }

    constructor (bootstrap: set<string>)
      ensures Contents() == Priorities(map s | s in bootstrap :: Hot, map[])
    {
      tiers, lastTouch := map s | s in bootstrap :: Hot, map[];
    }

    method Register(symbol: string, tier: Tier, now: real)
      modifies this
      ensures Contents() == old(Registered(Contents(), symbol, tier, now))
    {
      var sym := Normalize(symbol);
      if sym == "" {
        return;
      }
      if sym !in tiers || TierRank(tier) < TierRank(tiers[sym]) {
        tiers := tiers[sym := tier];
      }
      lastTouch := lastTouch[sym := now];
    }

    method Touch(symbol: string, now: real)
      modifies this
      ensures Contents() == old(Touched(Contents(), symbol, now))
    {
      var sym := Normalize(symbol);
      if sym != "" {
        lastTouch := lastTouch[sym := now];
      }
    }

    method GetTier(symbol: string, now: real) returns (tier: Tier)
      ensures tier == TierOf(Contents(), symbol, now)
      ensures Normalize(symbol) in tiers && Normalize(symbol) != "" ==> tier == tiers[Normalize(symbol)]
      ensures Normalize(symbol) !in tiers ==> !tier.Hot?
    {
      var sym := Normalize(symbol);
      if sym == "" {
        return Cold;
      }
      if sym in tiers {
        return tiers[sym];
      }
      var last := if sym in lastTouch then lastTouch[sym] else 0.0;
      if last != 0.0 && now - last < TOUCH_DECAY {
        return Warm;
      }
      return Cold;
    }
  }
}

module QuoteRouter {
  import opened Basics
  import opened Text
  import opened SymbolPriority

  /** A timestamp field: the key is absent, present but empty, or holds a value described by
      what `float` and `datetime.fromisoformat` make of it. */
  datatype Stamp = Absent | Blank | Raw(numeric: Option<real>, iso: Option<real>)

  datatype Freshness = Live | Delayed | Stale | Frozen | Eod

  /** `sequence` is 0 when absent; `payload` stands for the fields the router never looks at. */
  datatype Quote = Quote(
    symbol: string,
    exchangeTimestamp: Stamp, timestamp: Stamp, lastTradeTime: Stamp,
    sequence: int, source: string,
    price: Option<real>, ltp: Option<real>, lp: Option<real>,
    freshness: Freshness, tier: Tier, coordinatorTs: real, payload: int)

  // ---------------------------------------------------------------------------------------
  // Timestamps
  // ---------------------------------------------------------------------------------------

  const MILLIS_FROM := 1000000000000.0
  const SECONDS_FROM := 1000000000.0

  function ParseStamp(s: Stamp): Option<real> {
    if !s.Raw? then None
    else if s.numeric.None? then s.iso
    else
      var t := if s.numeric.value > MILLIS_FROM then s.numeric.value / 1000.0 else s.numeric.value;
      if t > SECONDS_FROM then Some(t) else s.iso
  }

  /** `_parse_ts`: the first non-empty field decides, even if it cannot be parsed. */
  function ParseTs(q: Quote): Option<real> {
    ParseStamp(if q.exchangeTimestamp.Raw? then q.exchangeTimestamp
               else if q.timestamp.Raw? then q.timestamp
               else q.lastTradeTime)
  }

  /** The router falls back on the clock. */
  function TsOr(q: Quote, now: real): real {
    if ParseTs(q).Some? then ParseTs(q).value else now
  }

  /** A number is read as seconds or as milliseconds, whichever lies after September 2001; smaller
      numbers are left to the ISO reading. */
  lemma SecondsOrMilliseconds(t: real, iso: Option<real>)
    ensures 1000000000.0 < t <= 1000000000000.0 ==> ParseStamp(Raw(Some(t), iso)) == Some(t)
    ensures 1000000000.0 < t ==> ParseStamp(Raw(Some(1000.0 * t), iso)) == Some(t)
    ensures t <= 1000000000.0 ==> ParseStamp(Raw(Some(t), iso)) == iso
    ensures ParseStamp(Raw(None, iso)) == iso
  {
  }

  /** The exchange's own time is preferred to the quote's, and that to the last trade's. */
  lemma TimePreference(q: Quote, iso: real)
    ensures q.exchangeTimestamp == Raw(None, Some(iso)) ==> ParseTs(q) == Some(iso)
    ensures !q.exchangeTimestamp.Raw? && q.timestamp == Raw(None, Some(iso)) ==> ParseTs(q) == Some(iso)
    ensures !q.exchangeTimestamp.Raw? && !q.timestamp.Raw? && q.lastTradeTime == Raw(None, Some(iso)) ==>
              ParseTs(q) == Some(iso)
    ensures q.exchangeTimestamp == Raw(None, None) ==> ParseTs(q) == None
    ensures !q.exchangeTimestamp.Raw? && !q.timestamp.Raw? && !q.lastTradeTime.Raw? ==> ParseTs(q) == None
  {
  }

  // ---------------------------------------------------------------------------------------
  // Overwrite rules
  // ---------------------------------------------------------------------------------------

  const RANK_OPEN: map<string, int> := map[
    "live_ws" := 5, "live" := 5, "simulation" := 5, "market_data_worker" := 4, "poll" := 3,
    "worker" := 3, "rest" := 2, "history_snapshot" := 1, "frozen" := 1, "eod" := 6]

  const RANK_CLOSED: map<string, int> := map[
    "official_eod_close" := 11, "eod" := 10, "frozen" := 9, "history_snapshot" := 8,
    "simulation" := 7, "live_ws" := 0, "live" := 0, "poll" := 4, "worker" := 4]

  function SourceRank(source: string, open: bool): int {
    var table := if open then RANK_OPEN else RANK_CLOSED;
    var key := Lower(source);
    if key in table then table[key] else 2
  }

  /** `x or y` on optional numbers: missing and zero fall through. */
  function Or(x: Option<real>, y: Option<real>): Option<real> {
    if x.Some? && x.value != 0.0 then x else y
  }

  const TOLERANCE := 0.001

  predicate ShouldAccept(existing: Option<Quote>, incoming: Quote, source: string, open: bool, now: real) {
    existing.None? ||
    var present := existing.value;
    var incomingTs, oldTs := TsOr(incoming, now), TsOr(present, now);
    if incomingTs > oldTs + TOLERANCE then true
    else if incomingTs < oldTs - TOLERANCE then false
    else if incoming.sequence != present.sequence then incoming.sequence > present.sequence
    else
      var rank, oldRank := SourceRank(source, open), SourceRank(present.source, open);
      if rank != oldRank then rank > oldRank
      else
        var price, oldPrice := Or(incoming.price, incoming.ltp), Or(present.price, present.ltp);
        price.Some? && price != oldPrice
  }

  /** Acceptance is lexicographic: time up to 1 ms, then sequence number, then rank of the source, and a
      full tie goes to the newcomer exactly when it brings another price. */
  lemma AcceptsLexicographically(present: Quote, q: Quote, source: string, open: bool, now: real)
    ensures var step := (if ParseTs(q).Some? then ParseTs(q).value else now)
                        - (if ParseTs(present).Some? then ParseTs(present).value else now);
            var rank, oldRank := SourceRank(source, open), SourceRank(present.source, open);
            var price := if q.price.Some? && q.price.value != 0.0 then q.price else q.ltp;
            var oldPrice := if present.price.Some? && present.price.value != 0.0 then present.price else present.ltp;
            ShouldAccept(Some(present), q, source, open, now) <==>
            || step > 0.001
            || (-0.001 <= step && q.sequence > present.sequence)
            || (-0.001 <= step && q.sequence == present.sequence && rank > oldRank)
            || (-0.001 <= step && q.sequence == present.sequence && rank == oldRank && price.Some? && price != oldPrice)
    ensures ShouldAccept(None, q, source, open, now)
  {
  }

  /** The order of the sources while the market is open, whatever the letter case; unknown ones rank
      with REST polls. */
  lemma OpenRanks(source: string)
    ensures SourceRank("eod", true) > SourceRank("live_ws", true) > SourceRank("market_data_worker", true)
            > SourceRank("poll", true) > SourceRank("rest", true) > SourceRank("history_snapshot", true)
    ensures SourceRank("live_ws", true) == SourceRank("live", true) == SourceRank("simulation", true)
    ensures SourceRank("poll", true) == SourceRank("worker", true)
    ensures SourceRank("history_snapshot", true) == SourceRank("frozen", true)
    ensures Lower(source) !in {"eod", "live_ws", "live", "simulation", "market_data_worker", "poll", "worker",
                               "rest", "history_snapshot", "frozen"} ==>
              SourceRank(source, true) == SourceRank("rest", true)
    ensures SourceRank(Lower(source), true) == SourceRank(source, true)
  {
    LowerLiterals();
    assert Lower(Lower(source)) == Lower(source);
  }

  /** The order after the close. */
  lemma ClosedRanks(source: string)
    ensures SourceRank("official_eod_close", false) > SourceRank("eod", false) > SourceRank("frozen", false)
            > SourceRank("history_snapshot", false) > SourceRank("simulation", false) > SourceRank("poll", false)
            > SourceRank("rest", false) > SourceRank("live_ws", false)
    ensures SourceRank("poll", false) == SourceRank("worker", false)
    ensures SourceRank("live_ws", false) == SourceRank("live", false)
    ensures Lower(source) !in {"official_eod_close", "eod", "frozen", "history_snapshot", "simulation", "live_ws",
                               "live", "poll", "worker"} ==>
              SourceRank(source, false) == SourceRank("rest", false)
    ensures SourceRank(Lower(source), false) == SourceRank(source, false)
  {
    LowerLiterals();
    assert Lower(Lower(source)) == Lower(source);
  }

  lemma LowerLiterals()
    ensures Lower("eod") == "eod" && Lower("live_ws") == "live_ws" && Lower("live") == "live"
    ensures Lower("simulation") == "simulation" && Lower("market_data_worker") == "market_data_worker"
    ensures Lower("poll") == "poll" && Lower("worker") == "worker" && Lower("rest") == "rest"
    ensures Lower("history_snapshot") == "history_snapshot" && Lower("frozen") == "frozen"
    ensures Lower("official_eod_close") == "official_eod_close"
  {
  }

  /** Two quotes can each displace the other, so that the last writer wins, exactly when they tie
      in time and sequence, their sources rank alike and both bring a price, and not the same. */
  lemma MutualOverwriteIff(a: Quote, b: Quote, open: bool, now: real)
    ensures ShouldAccept(Some(a), b, b.source, open, now) && ShouldAccept(Some(b), a, a.source, open, now)
            <==>
            && -TOLERANCE <= TsOr(a, now) - TsOr(b, now) <= TOLERANCE
            && a.sequence == b.sequence
            && SourceRank(a.source, open) == SourceRank(b.source, open)
            && Or(a.price, a.ltp).Some? && Or(b.price, b.ltp).Some? && Or(a.price, a.ltp) != Or(b.price, b.ltp)
  {
  }

  /** After the close an official closing price is not displaced by a live tick of the same moment. */
  lemma OfficialCloseHolds(official: Quote, live: Quote, now: real)
    requires official.source == "official_eod_close" && live.source == "live_ws"
    requires TsOr(live, now) <= TsOr(official, now) + TOLERANCE && live.sequence <= official.sequence
    ensures !ShouldAccept(Some(official), live, live.source, false, now)
    ensures (TsOr(live, now) >= TsOr(official, now) - TOLERANCE && live.sequence == official.sequence) ==>
              ShouldAccept(Some(live), official, official.source, false, now)
  {
    assert Lower("official_eod_close") == "official_eod_close" && Lower("live_ws") == "live_ws";
    assert "official_eod_close" in RANK_CLOSED && "live_ws" in RANK_CLOSED;
  }

  function NormalizeForStorage(q: Quote): Quote {
    var price := Or(Or(q.price, q.ltp), q.lp);
    if price.Some? then q.(price := price) else q
  }

  // ---------------------------------------------------------------------------------------
  // Enrichment
  // ---------------------------------------------------------------------------------------

  function Classify(p: Priorities, symbol: string, q: Quote, open: bool, lastTick: real, now: real): Freshness {
    var source := Lower(q.source);
    if source == "official_eod_close" || source == "eod" then Eod
    else if source == "frozen" || source == "history_snapshot" || !open then Frozen
    else
      var tickAt := if lastTick != 0.0 then lastTick
                    else if ParseTs(q).Some? && ParseTs(q).value != 0.0 then ParseTs(q).value
                    else now;
      var age := if now - tickAt > 0.0 then now - tickAt else 0.0;
      var (liveFor, delayedFor) := match TierOf(p, symbol, now)
                                   case Hot => (2.0, 8.0)
                                   case Warm => (4.0, 20.0)
                                   case Cold => (15.0, 45.0);
      if age <= liveFor then Live else if age <= delayedFor then Delayed else Stale
  }

  function Enriched(p: Priorities, sym: string, q: Quote, source: string, sequence: int, open: bool,
                    lastTick: real, now: real): Quote {
    var stamp :=
      if q.exchangeTimestamp.Absent? && ParseTs(q).Some? && ParseTs(q).value != 0.0
      then Raw(ParseTs(q), None)
      else q.exchangeTimestamp;
    q.(symbol := if sym != "" then sym else q.symbol, source := source, sequence := sequence,
       freshness := Classify(p, sym, q, open, lastTick, now), tier := TierOf(p, sym, now),
       coordinatorTs := now, exchangeTimestamp := stamp)
  }

  /** What is read from a quote once it is stored: its own prices, fields and source, its price the first
      nonzero one of `price`, `ltp` and `lp`. */
  lemma StoredFields(p: Priorities, sym: string, q: Quote, source: string, sequence: int, open: bool,
                     lastTick: real, now: real)
    requires sym != ""
    ensures var e := Enriched(p, sym, NormalizeForStorage(q), source, sequence, open, lastTick, now);
            KeepsContent(e, q) && e.symbol == sym && e.source == source && e.sequence == sequence && e.coordinatorTs == now
  {
  }

  predicate NonZero(x: Option<real>) { x.Some? && x.value != 0.0 }

  /** `e` has the content of `q`, with the first nonzero price under `price`. */
  ghost predicate KeepsContent(e: Quote, q: Quote) {
    && e.ltp == q.ltp && e.lp == q.lp && e.payload == q.payload
    && e.timestamp == q.timestamp && e.lastTradeTime == q.lastTradeTime
    && (!q.exchangeTimestamp.Absent? ==> e.exchangeTimestamp == q.exchangeTimestamp)
    && (NonZero(q.price) ==> e.price == q.price)
    && (!NonZero(q.price) && NonZero(q.ltp) ==> e.price == q.ltp)
    && (!NonZero(q.price) && !NonZero(q.ltp) && NonZero(q.lp) ==> e.price == q.lp)
    && (!NonZero(q.price) && !NonZero(q.ltp) && !NonZero(q.lp) ==> e.price == if q.lp.Some? then q.lp else q.price)
  }

  /** A live quote is fresh, delayed or stale by the age of its last tick, or of its own time if there is none,
      with limits that depend on the tier of its symbol: 2 and 8 s, 4 and 20 s, 15 and 45 s. */
  lemma FreshnessByAge(p: Priorities, sym: string, q: Quote, lastTick: real, now: real)
    requires Lower(q.source) !in {"official_eod_close", "eod", "frozen", "history_snapshot"}
    ensures var mark := Classify(p, sym, q, true, lastTick, now);
            var age := if lastTick != 0.0 then now - lastTick
                       else if ParseTs(q).Some? && ParseTs(q).value != 0.0 then now - ParseTs(q).value
                       else 0.0;
            match TierOf(p, sym, now)
            case Hot => mark == if age <= 2.0 then Live else if age <= 8.0 then Delayed else Stale
            case Warm => mark == if age <= 4.0 then Live else if age <= 20.0 then Delayed else Stale
            case Cold => mark == if age <= 15.0 then Live else if age <= 45.0 then Delayed else Stale
  {
  }

  /** Official closes are labelled as such, and nothing else is live once the market is closed. */
  lemma FreshnessWhenClosed(p: Priorities, sym: string, q: Quote, open: bool, lastTick: real, now: real)
    ensures var mark, source := Classify(p, sym, q, open, lastTick, now), Lower(q.source);
            && (source in {"official_eod_close", "eod"} <==> mark == Eod)
            && (source in {"frozen", "history_snapshot"} || (!open && source !in {"official_eod_close", "eod"})
                <==> mark == Frozen)
  {
  }

  /** The parsed time survives being stored as a number and parsed again. */
  predicate Reparses(q: Quote) {
    || !q.exchangeTimestamp.Absent?
    || ParseTs(q).None?
    || ParseTs(q).value == 0.0
    || SECONDS_FROM < ParseTs(q).value <= MILLIS_FROM
  }

  /** Enrichment keeps the parsed timestamp exactly when the quote brings an
      `exchange_timestamp` of its own or its time lies in the range that parses as seconds. */
  lemma EnrichmentKeepsTimestamp(p: Priorities, sym: string, q: Quote, source: string, sequence: int,
                                 open: bool, lastTick: real, now: real)
    ensures ParseTs(Enriched(p, sym, q, source, sequence, open, lastTick, now)) == ParseTs(q) <==> Reparses(q)
  {
  }

  /** An ISO time before September 2001 is lost by the enrichment. */
  lemma OldIsoTimeIsLost(p: Priorities, q: Quote)
    requires q.exchangeTimestamp.Absent? && q.timestamp == Raw(None, Some(900000000.0))
    ensures ParseTs(q) == Some(900000000.0)
    ensures ParseTs(Enriched(p, "TCS.NS", q, "live_ws", 1, true, 1.0, 1.0)) == None
  {
  }
}
