/** What the price cache keeps over every sequence of writes (backend/cache/redis_client.py). */
module PriceCacheRuns {
  import opened Basics
  import opened Text
  import opened SymbolMap
  import opened PriceCache

  /** The writers; `closed` is the market state each of them reads. */
  datatype Op =
    | SetPrice(symbol: string, quote: Quote, closed: bool, now: real)
    | SetMirrored(canonical: string, quote: Quote, mirrors: seq<string>, closed: bool, now: real)
    | SetBatch(quotes: seq<(string, Quote)>, closed: bool, now: real)
    | SetClose(symbol: string, quote: Quote, now: real)
    | Delete(symbol: string)

  function Step(s: Store, op: Op, round: real -> real): Store {
    match op
    case SetPrice(symbol, q, closed, now) => Written(s, [(symbol, q)], closed, now, round)
    case SetMirrored(c, q, mirrors, closed, now) => Written(s, MirrorQuotes(c, q, mirrors), closed, now, round)
    case SetBatch(quotes, closed, now) => Written(s, quotes, closed, now, round)
    case SetClose(symbol, q, now) => AfterClose(s, symbol, q, now, round)
    case Delete(symbol) => Store(s.price - {symbol}, s.lastPrice - {symbol})
  }

  function Run(s: Store, ops: seq<Op>, round: real -> real): Store {
    if ops == [] then s else Step(Run(s, ops[..|ops| - 1], round), ops[|ops| - 1], round)
  }

  // ---------------------------------------------------------------------------------------
  // Plausibility
  // ---------------------------------------------------------------------------------------

  /** A quote with a positive price; one without is stored as it came. */
  predicate Sound(q: Quote) { HasPrice(q) || Plausible(q) }

  ghost predicate AllSound(quotes: seq<(string, Quote)>) {
    forall i :: 0 <= i < |quotes| ==> Sound(quotes[i].1)
  }

  ghost predicate SoundOp(op: Op) {
    match op
    case SetPrice(_, q, _, _) => Sound(q)
    case SetMirrored(_, q, _, _, _) => Sound(q)
    case SetBatch(quotes, _, _) => AllSound(quotes)
    case SetClose(_, q, _) => Sound(q)
    case Delete(_) => true
  }

  ghost predicate LastPricesPlausible(s: Store) {
    forall x :: x in s.lastPrice ==> Plausible(s.lastPrice[x])
  }

  lemma PreparedIsPlausible(symbol: string, q: Quote, closed: bool, round: real -> real)
    requires Sound(q) && Prepared(symbol, q, closed, round).Some?
    ensures Plausible(Prepared(symbol, q, closed, round).value.last)
  {
    EnrichedIsPlausibleIff(q, round);
    if closed {
      EnrichedIsPlausibleIff(Enriched(q, round).value, round);
    }
  }

  ghost predicate WritesPlausible(ws: seq<Write>) {
    forall i :: 0 <= i < |ws| ==> Plausible(ws[i].last)
  }

  lemma {:induction false} PreparedAllIsPlausible(quotes: seq<(string, Quote)>, closed: bool, round: real -> real)
    requires AllSound(quotes) && PreparedAll(quotes, closed, round).Some?
    ensures WritesPlausible(PreparedAll(quotes, closed, round).value)
  {
    if quotes != [] {
      var (symbol, q) := quotes[|quotes| - 1];
      PreparedAllIsPlausible(quotes[..|quotes| - 1], closed, round);
      PreparedIsPlausible(symbol, q, closed, round);
    }
  }

  lemma {:induction false} ApplyAllIsPlausible(s: Store, ws: seq<Write>, expireAt: real)
    requires LastPricesPlausible(s) && WritesPlausible(ws)
    ensures LastPricesPlausible(ApplyAll(s, ws, expireAt))
  {
    if ws != [] {
      ApplyAllIsPlausible(s, ws[..|ws| - 1], expireAt);
    }
  }

  lemma WrittenIsPlausible(s: Store, quotes: seq<(string, Quote)>, closed: bool, now: real, round: real -> real)
    requires LastPricesPlausible(s) && AllSound(quotes)
    ensures LastPricesPlausible(Written(s, quotes, closed, now, round))
  {
    if PreparedAll(quotes, closed, round).Some? {
      PreparedAllIsPlausible(quotes, closed, round);
      ApplyAllIsPlausible(s, PreparedAll(quotes, closed, round).value, now + Ttl(closed));
    }
  }

  /** Rewriting keys that the price and the percentage are not read from keeps a quote sound. */
  lemma RewriteIsSound(q: Quote, q': Quote)
    requires Sound(q)
    requires forall k :: k in PRICE_KEYS || k == "change_percent" ==> Get(q', k) == Get(q, k)
    ensures Sound(q')
  {
    FirstOfUnchanged(q, q', PRICE_KEYS);
  }

  lemma {:induction false} FirstOfUnchanged(q: Quote, q': Quote, keys: seq<string>)
    requires keys != [] && forall k :: k in keys ==> Get(q', k) == Get(q, k)
    ensures FirstOf(q', keys) == FirstOf(q, keys)
  {
    if |keys| > 1 {
      assert keys[0] in keys && forall k :: k in keys[1..] ==> k in keys;
      FirstOfUnchanged(q, q', keys[1..]);
    }
  }

  lemma MirrorQuoteIsSound(q: Quote, canonical: string, symbol: string)
    requires Sound(q)
    ensures Sound(MirrorQuote(q, canonical, symbol))
  {
    RewriteIsSound(q, MirrorQuote(q, canonical, symbol));
  }

  lemma {:induction false} MirrorQuotesAreSound(canonical: string, q: Quote, mirrors: seq<string>)
    requires Sound(q)
    ensures AllSound(MirrorQuotes(canonical, q, mirrors))
  {
    if mirrors != [] {
      MirrorQuotesAreSound(canonical, q, mirrors[..|mirrors| - 1]);
      MirrorQuoteIsSound(q, canonical, mirrors[|mirrors| - 1]);
    }
  }

  /** The fields `set_authoritative_close` adds are none of those. */
  lemma CloseQuoteKeeps(q: Quote, now: real, k: string)
    requires k in PRICE_KEYS || k == "change_percent"
    ensures Get(CloseQuote(q, now), k) == Get(q, k)
  {
    assert k != "source" && k != "source_detail" && k != "market_session" && k != "official";
    assert k != "frozen" && k != "frozen_at" && k != "official_close" && k != "official_close_timestamp";
  }

  lemma CloseQuoteIsSound(q: Quote, now: real)
    requires Sound(q)
    ensures Sound(CloseQuote(q, now))
  {
    forall k | k in PRICE_KEYS || k == "change_percent" ensures Get(CloseQuote(q, now), k) == Get(q, k) {
      CloseQuoteKeeps(q, now, k);
    }
    RewriteIsSound(q, CloseQuote(q, now));
  }

  lemma CloseIsPlausible(s: Store, symbol: string, q: Quote, now: real, round: real -> real)
    requires LastPricesPlausible(s) && Sound(q)
    ensures LastPricesPlausible(AfterClose(s, symbol, q, now, round))
  {
    CloseQuoteIsSound(q, now);
    var before := CloseQuote(q, now);
    if Enriched(before, round).Some? {
      var enriched := Enriched(before, round).value;
      EnrichedIsPlausibleIff(before, round);
      ClosePayloadKeepsPercent(enriched, round);
      assert Plausible(ClosePayload(enriched, round));
    }
  }

  lemma ClosePayloadKeepsPercent(q: Quote, round: real -> real)
    ensures Get(ClosePayload(q, round), "change_percent") == Get(q, "change_percent")
  {
  }

  /** MAIN: over every sequence of the four writers, with any market states and any quotes that
      have a positive price or a plausible change to begin with, no stored last price ever shows a
      day change beyond 100 percent. */
  lemma {:induction false} LastPricesStayPlausible(s: Store, ops: seq<Op>, round: real -> real)
    requires LastPricesPlausible(s) && forall i :: 0 <= i < |ops| ==> SoundOp(ops[i])
    ensures LastPricesPlausible(Run(s, ops, round))
  {
    if ops != [] {
      LastPricesStayPlausible(s, ops[..|ops| - 1], round);
      PlausibleStep(Run(s, ops[..|ops| - 1], round), ops[|ops| - 1], round);
    }
  }

  lemma PlausibleStep(s: Store, op: Op, round: real -> real)
    requires LastPricesPlausible(s) && SoundOp(op)
    ensures LastPricesPlausible(Step(s, op, round))
  {
    match op
    case SetPrice(symbol, q, closed, now) => WrittenIsPlausible(s, [(symbol, q)], closed, now, round);
    case SetMirrored(c, q, mirrors, closed, now) =>
      MirrorQuotesAreSound(c, q, mirrors);
      WrittenIsPlausible(s, MirrorQuotes(c, q, mirrors), closed, now, round);
    case SetBatch(quotes, closed, now) => WrittenIsPlausible(s, quotes, closed, now, round);
    case SetClose(symbol, q, now) => CloseIsPlausible(s, symbol, q, now, round);
    case Delete(_) =>
  }

  /** The condition is needed: a quote without a price is stored with whatever change it brings. */
  lemma PricelessQuoteIsStoredAsIs(s: Store, symbol: string, q: Quote, now: real, round: real -> real)
    requires !HasPrice(q) && !Plausible(q)
    ensures !LastPricesPlausible(Step(s, SetPrice(symbol, q, false, now), round))
  {
    var quotes := [(symbol, q)];
    assert quotes[..0] == [] && PreparedAll([], false, round) == Some([]);
    var w := Write(symbol, q, q);
    assert Prepared(symbol, q, false, round) == Some(w);
    assert PreparedAll(quotes, false, round) == Some([w]) by { assert [] + [w] == [w]; }
    assert [w][..0] == [];
    assert ApplyAll(s, [w], now + Ttl(false)).lastPrice[symbol] == q;
  }

  // ---------------------------------------------------------------------------------------
  // Alias read after write
  // ---------------------------------------------------------------------------------------

  /** The keys an operation writes or deletes. */
  function Keys(op: Op): set<string> {
    match op
    case SetPrice(symbol, _, _, _) => {symbol}
    case SetMirrored(c, _, mirrors, _, _) => {c} + set m | m in mirrors
    case SetBatch(quotes, _, _) => set i | 0 <= i < |quotes| :: quotes[i].0
    case SetClose(symbol, _, _) => {symbol}
    case Delete(symbol) => {symbol}
  }

  lemma {:induction false} ApplyAllElsewhere(s: Store, ws: seq<Write>, expireAt: real, key: string)
    requires forall i :: 0 <= i < |ws| ==> ws[i].symbol != key
    ensures key in ApplyAll(s, ws, expireAt).price <==> key in s.price
    ensures key in s.price ==> ApplyAll(s, ws, expireAt).price[key] == s.price[key]
    ensures key in ApplyAll(s, ws, expireAt).lastPrice <==> key in s.lastPrice
    ensures key in s.lastPrice ==> ApplyAll(s, ws, expireAt).lastPrice[key] == s.lastPrice[key]
  {
    if ws != [] {
      ApplyAllElsewhere(s, ws[..|ws| - 1], expireAt, key);
    }
  }

  lemma {:induction false} PreparedSymbols(quotes: seq<(string, Quote)>, closed: bool, round: real -> real)
    requires PreparedAll(quotes, closed, round).Some?
    ensures var ws := PreparedAll(quotes, closed, round).value;
            |ws| == |quotes| && forall i :: 0 <= i < |ws| ==>
              Some(ws[i]) == Prepared(quotes[i].0, quotes[i].1, closed, round) && ws[i].symbol == quotes[i].0
  {
    if quotes != [] {
      PreparedSymbols(quotes[..|quotes| - 1], closed, round);
    }
  }

  lemma WrittenElsewhere(s: Store, quotes: seq<(string, Quote)>, closed: bool, now: real, round: real -> real, key: string)
    requires forall i :: 0 <= i < |quotes| ==> quotes[i].0 != key
    ensures var s' := Written(s, quotes, closed, now, round);
            && (key in s'.price <==> key in s.price) && (key in s.price ==> s'.price[key] == s.price[key])
            && (key in s'.lastPrice <==> key in s.lastPrice)
            && (key in s.lastPrice ==> s'.lastPrice[key] == s.lastPrice[key])
  {
    if PreparedAll(quotes, closed, round).Some? {
      PreparedSymbols(quotes, closed, round);
      ApplyAllElsewhere(s, PreparedAll(quotes, closed, round).value, now + Ttl(closed), key);
    }
  }

  lemma {:induction false} MirrorQuotesSymbols(c: string, q: Quote, mirrors: seq<string>)
    ensures forall i :: 0 <= i < |MirrorQuotes(c, q, mirrors)| ==>
              var (symbol, mirrored) := MirrorQuotes(c, q, mirrors)[i];
              mirrored == MirrorQuote(q, c, symbol) && (symbol == c || symbol in mirrors)
  {
    if mirrors != [] {
      MirrorQuotesSymbols(c, q, mirrors[..|mirrors| - 1]);
    }
  }

  ghost predicate Listed(quotes: seq<(string, Quote)>, key: string) {
    exists i :: 0 <= i < |quotes| && quotes[i].0 == key
  }

  lemma {:induction false} MirrorIsListed(c: string, q: Quote, mirrors: seq<string>, key: string)
    requires key == c || (key in mirrors && key != "")
    ensures Listed(MirrorQuotes(c, q, mirrors), key)
  {
    var all := MirrorQuotes(c, q, mirrors);
    if mirrors == [] {
      assert all[0].0 == key;
    } else {
      var before, last := mirrors[..|mirrors| - 1], mirrors[|mirrors| - 1];
      var qs := MirrorQuotes(c, q, before);
      if key == c || key in before {
        MirrorIsListed(c, q, before, key);
        var i :| 0 <= i < |qs| && qs[i].0 == key;
        assert all[i].0 == key;
      } else {
        assert mirrors == before + [last];
        assert all[|qs|].0 == key;
      }
    }
  }

  lemma StepElsewhere(s: Store, op: Op, round: real -> real, key: string)
    requires key !in Keys(op)
    ensures var s' := Step(s, op, round);
            (key in s'.price <==> key in s.price) && (key in s.price ==> s'.price[key] == s.price[key])
  {
    match op
    case SetPrice(symbol, q, closed, now) => WrittenElsewhere(s, [(symbol, q)], closed, now, round, key);
    case SetMirrored(c, q, mirrors, closed, now) =>
      MirrorQuotesSymbols(c, q, mirrors);
      WrittenElsewhere(s, MirrorQuotes(c, q, mirrors), closed, now, round, key);
    case SetBatch(quotes, closed, now) => WrittenElsewhere(s, quotes, closed, now, round, key);
    case SetClose(_, _, _) =>
    case Delete(_) =>
  }

  lemma {:induction false} RunElsewhere(s: Store, ops: seq<Op>, round: real -> real, key: string)
    requires forall i :: 0 <= i < |ops| ==> key !in Keys(ops[i])
    ensures var s' := Run(s, ops, round);
            (key in s'.price <==> key in s.price) && (key in s.price ==> s'.price[key] == s.price[key])
  {
    if ops != [] {
      RunElsewhere(s, ops[..|ops| - 1], round, key);
      StepElsewhere(Run(s, ops[..|ops| - 1], round), ops[|ops| - 1], round, key);
    }
  }

  /** All writes under one key agree, so the key ends with that payload. */
  lemma {:induction false} ApplyAllAt(s: Store, ws: seq<Write>, expireAt: real, key: string, payload: Quote)
    requires exists i :: 0 <= i < |ws| && ws[i].symbol == key
    requires forall i :: 0 <= i < |ws| && ws[i].symbol == key ==> ws[i].payload == payload
    ensures key in ApplyAll(s, ws, expireAt).price
    ensures ApplyAll(s, ws, expireAt).price[key] == Entry(payload, expireAt)
  {
    var before, w := ws[..|ws| - 1], ws[|ws| - 1];
    if w.symbol != key {
      var i :| 0 <= i < |ws| && ws[i].symbol == key;
      assert before[i].symbol == key;
      ApplyAllAt(s, before, expireAt, key, payload);
    }
  }

  lemma MirrorPayload(c: string, q: Quote, mirrors: seq<string>, closed: bool, round: real -> real, j: nat)
    requires PreparedAll(MirrorQuotes(c, q, mirrors), closed, round).Some? && j < |MirrorQuotes(c, q, mirrors)|
    ensures var ws := PreparedAll(MirrorQuotes(c, q, mirrors), closed, round).value;
            && |ws| == |MirrorQuotes(c, q, mirrors)| && ws[j].symbol == MirrorQuotes(c, q, mirrors)[j].0
            && StoredAs(MirrorQuote(q, c, ws[j].symbol), closed, round) == Some(ws[j].payload)
  {
    var quotes := MirrorQuotes(c, q, mirrors);
    MirrorQuotesSymbols(c, q, mirrors);
    PreparedSymbols(quotes, closed, round);
    var (symbol, mirrored) := quotes[j];
    PreparedPayload(symbol, mirrored, closed, round);
  }

  lemma PreparedPayload(symbol: string, q: Quote, closed: bool, round: real -> real)
    requires Prepared(symbol, q, closed, round).Some?
    ensures StoredAs(q, closed, round) == Some(Prepared(symbol, q, closed, round).value.payload)
  {
  }

  /** The writes a mirrored tick turns into; those under one key carry one payload. */
  lemma MirrorPayloadsAgree(c: string, q: Quote, mirrors: seq<string>, closed: bool, round: real -> real,
                            ws: seq<Write>, key: string) returns (payload: Quote)
    requires PreparedAll(MirrorQuotes(c, q, mirrors), closed, round) == Some(ws)
    requires key == c || (key in mirrors && key != "")
    ensures exists i :: 0 <= i < |ws| && ws[i].symbol == key
    ensures forall i :: 0 <= i < |ws| && ws[i].symbol == key ==> ws[i].payload == payload
    ensures StoredAs(MirrorQuote(q, c, key), closed, round) == Some(payload)
  {
    var quotes := MirrorQuotes(c, q, mirrors);
    MirrorIsListed(c, q, mirrors, key);
    var i :| 0 <= i < |quotes| && quotes[i].0 == key;
    MirrorPayload(c, q, mirrors, closed, round, i);
    payload := ws[i].payload;
    forall j | 0 <= j < |ws| && ws[j].symbol == key ensures ws[j].payload == payload {
      MirrorPayload(c, q, mirrors, closed, round, j);
    }
  }

  /** What a mirrored write leaves under each of its keys. */
  lemma MirroredWriteAt(s: Store, c: string, q: Quote, mirrors: seq<string>, closed: bool, now: real,
                        round: real -> real, key: string) returns (payload: Quote)
    requires PreparedAll(MirrorQuotes(c, q, mirrors), closed, round).Some?
    requires key == c || (key in mirrors && key != "")
    ensures var s' := Step(s, SetMirrored(c, q, mirrors, closed, now), round);
            key in s'.price && s'.price[key] == Entry(payload, now + Ttl(closed))
    ensures StoredAs(MirrorQuote(q, c, key), closed, round) == Some(payload)
  {
    var ws := PreparedAll(MirrorQuotes(c, q, mirrors), closed, round).value;
    payload := MirrorPayloadsAgree(c, q, mirrors, closed, round, ws, key);
    ApplyAllAt(s, ws, now + Ttl(closed), key, payload);
  }

  lemma AliasKeyIsMirrored(c: string, symbol: string)
    requires Canonical(c, COMMODITIES) == c != "" && Canonical(symbol, COMMODITIES) in Mirrors(c, TABLES, COMMODITIES)
    ensures Aliases(symbol) != [] && Aliases(symbol)[0] in Mirrors(c, TABLES, COMMODITIES) && Aliases(symbol)[0] != ""
  {
    TablesAreConsistent();
    CanonicalTwice(symbol, COMMODITIES);
    FirstLookupIsMirrored(c, Normalize(symbol), TABLES, COMMODITIES);
    DistinctKeeps([c] + Counterparts(TABLES.legacy, c), {});
    CounterpartsAre(TABLES.legacy, c, "");
  }

  /** MAIN: read after write across aliases.  After a tick of a canonical symbol is written to its
      mirror class, then until expiry and whatever is written elsewhere, reading any symbol that
      normalises into that class returns that tick: unchanged but for symbol and name while the
      market is open, and enriched when it is closed. */
  lemma AliasReadsTheTick(s: Store, c: string, q: Quote, closed: bool, written: real, after: seq<Op>,
                          symbol: string, now: real, round: real -> real)
    requires Canonical(c, COMMODITIES) == c != ""
    requires var mirrors := Mirrors(c, TABLES, COMMODITIES);
             && PreparedAll(MirrorQuotes(c, q, mirrors), closed, round).Some?
             && Canonical(symbol, COMMODITIES) in mirrors
             && (forall i, m :: 0 <= i < |after| && m in mirrors ==> m !in Keys(after[i]))
    requires now < written + Ttl(closed)
    ensures var mirrors := Mirrors(c, TABLES, COMMODITIES);
            var s' := Run(Step(s, SetMirrored(c, q, mirrors, closed, written), round), after, round);
            && Aliases(symbol) != [] && Aliases(symbol)[0] in mirrors
            && FirstFound(s', Aliases(symbol), now) ==
               StoredAs(MirrorQuote(q, c, Aliases(symbol)[0]), closed, round)
  {
    var mirrors := Mirrors(c, TABLES, COMMODITIES);
    var wrote := Step(s, SetMirrored(c, q, mirrors, closed, written), round);
    AliasKeyIsMirrored(c, symbol);
    var key := Aliases(symbol)[0];
    var payload := MirroredWriteAt(s, c, q, mirrors, closed, written, round, key);
    RunElsewhere(wrote, after, round, key);
    var s' := Run(wrote, after, round);
    assert FirstFound(s', Aliases(symbol), now) == Fetch(s', key, now);
  }
}
