/** The quote authority of backend/market/quote_coordinator.py.

`ingest_equity_quote` is a coroutine.  Between its awaits it has three atomic blocks: accept and
store the quote, decide and record an emit, write the mirror aliases.  Each is a method here,
proved against a function; runs of interleaved tasks are studied in CoordinatorRuns. */
module QuoteCoordinator {
  import opened Basics
  import opened Text
  import opened SymbolPriority
  import opened QuoteRouter

  datatype Registry = Registry(
    authority: map<string, Quote>, sequences: map<string, int>,
    lastTick: map<string, real>, lastEmit: map<string, real>, priorities: Priorities)

  /** The arguments of one ingest; `open` is the market state read at its start. */
  datatype Ingest = Ingest(
    symbol: string, quote: Quote, source: string, changed: bool, mirrors: seq<string>,
    emitEvent: bool, open: bool)

  /** What a task carries across its awaits; `emit` while its emit block is still to come. */
  datatype Task = Task(
    sym: string, enriched: Quote, source: string, mirrors: seq<string>, open: bool, now: real,
    tier: Tier, emit: bool)

  const QUEUE_SHED := 250

  function Lookup<V>(m: map<string, V>, key: string): Option<V> {
    if key in m then Some(m[key]) else None
  }

  function SymbolOf(i: Ingest): string {
    Normalize(if i.symbol != "" then i.symbol else i.quote.symbol)
  }

  // ---------------------------------------------------------------------------------------
  // Block 1: accept and store
  // ---------------------------------------------------------------------------------------

  function Candidate(i: Ingest): Quote {
    NormalizeForStorage(i.quote.(symbol := SymbolOf(i)))
  }

  predicate Accepts(r: Registry, i: Ingest, now: real) {
    && SymbolOf(i) != ""
    && ShouldAccept(Lookup(r.authority, SymbolOf(i)), Candidate(i), i.source, i.open, now)
  }

  function NextSequence(r: Registry, sym: string): int {
    (if sym in r.sequences then r.sequences[sym] else 0) + 1
  }

  function Stored(r: Registry, i: Ingest, now: real): Quote {
    var sym := SymbolOf(i);
    Enriched(r.priorities, sym, Candidate(i), i.source, NextSequence(r, sym), i.open, now, now)
  }

  function AfterAccept(r: Registry, i: Ingest, now: real): Registry {
    var sym := SymbolOf(i);
    Registry(r.authority[sym := Stored(r, i, now)], r.sequences[sym := NextSequence(r, sym)],
             r.lastTick[sym := now], r.lastEmit, Touched(r.priorities, sym, now))
  }

  function TaskFor(r: Registry, i: Ingest, now: real): Task {
    var sym := SymbolOf(i);
    Task(sym, Stored(r, i, now), i.source, i.mirrors, i.open, now,
         TierOf(Touched(r.priorities, sym, now), sym, now), i.emitEvent && i.changed)
  }

  // ---------------------------------------------------------------------------------------
  // Block 2: emit
  // ---------------------------------------------------------------------------------------

  datatype Outcome = Shed | Throttled | Emitted

  function LastEmit(r: Registry, symbol: string): real {
    if symbol in r.lastEmit then r.lastEmit[symbol] else 0.0
  }

  predicate ShouldThrottle(r: Registry, symbol: string, tier: Tier, now: real) {
    EmitInterval(tier) > 0.0 && now - LastEmit(r, symbol) < EmitInterval(tier)
  }

  function EmitOutcome(r: Registry, symbol: string, tier: Tier, queueSize: nat, now: real): Outcome {
    if queueSize >= QUEUE_SHED && tier.Cold? then Shed
    else if ShouldThrottle(r, symbol, tier, now) then Throttled
    else Emitted
  }

  function AfterEmit(r: Registry, symbol: string, tier: Tier, queueSize: nat, now: real): Registry {
    if EmitOutcome(r, symbol, tier, queueSize, now).Emitted?
    then r.(lastEmit := r.lastEmit[symbol := now]) else r
  }

  // ---------------------------------------------------------------------------------------
  // Block 3: mirrors
  // ---------------------------------------------------------------------------------------

  function AfterMirror(r: Registry, t: Task, alias: string, now: real): Registry {
    if alias == "" || alias == t.sym then r
    else
      var name := Normalize(alias);
      if ShouldAccept(Lookup(r.authority, name), t.enriched.(symbol := name), t.source, t.open, now)
      then r.(authority := r.authority[name := t.enriched.(symbol := name)], lastTick := r.lastTick[name := t.now])
      else r
  }

  function AfterMirrors(r: Registry, t: Task, mirrors: seq<string>, now: real): Registry {
    if mirrors == [] then r
    else AfterMirror(AfterMirrors(r, t, mirrors[..|mirrors| - 1], now), t, mirrors[|mirrors| - 1], now)
  }

  /** The registry names a mirror list writes to. */
  function Names(mirrors: seq<string>, sym: string): set<string> {
    set i | 0 <= i < |mirrors| && mirrors[i] != "" && mirrors[i] != sym :: Normalize(mirrors[i])
  }

  class Coordinator {
    var authority: map<string, Quote>
    var sequences: map<string, int>
    var lastTick: map<string, real>
    var lastEmit: map<string, real>
    const engine: SymbolPriorityEngine

    ghost function Contents(): Registry
      reads this, engine
    {
      Registry(authority, sequences, lastTick, lastEmit, engine.Contents())
    }

    constructor (engine: SymbolPriorityEngine)
      ensures Contents() == Registry(map[], map[], map[], map[], engine.Contents())
      ensures this.engine == engine
    {
      authority, sequences, lastTick, lastEmit := map[], map[], map[], map[];
      this.engine := engine;
    }

    method BeginIngest(i: Ingest, now: real) returns (task: Option<Task>)
      modifies this, engine
      ensures task == old(if Accepts(Contents(), i, now) then Some(TaskFor(Contents(), i, now)) else None)
      ensures Contents() == old(if Accepts(Contents(), i, now) then AfterAccept(Contents(), i, now) else Contents())
    {
      var sym := SymbolOf(i);
      if sym == "" {
        return None;
      }
      var existing := Lookup(authority, sym);
      var candidate := Candidate(i);
      if !ShouldAccept(existing, candidate, i.source, i.open, now) {
        return None;
      }
      task := StoreQuote(i, candidate, now);
    }

    /** The rest of the block, once the quote is accepted. */
    method StoreQuote(i: Ingest, candidate: Quote, now: real) returns (task: Option<Task>)
      requires candidate == Candidate(i)
      modifies this, engine
      ensures task == old(Some(TaskFor(Contents(), i, now)))
      ensures Contents() == old(AfterAccept(Contents(), i, now))
    {
      var sym := SymbolOf(i);
      var sequence := (if sym in sequences then sequences[sym] else 0) + 1;
      var priorities := Priorities(engine.tiers, engine.lastTouch);
      var enriched := Enriched(priorities, sym, candidate, i.source, sequence, i.open, now, now);
      sequences := sequences[sym := sequence];
      authority := authority[sym := enriched];
      lastTick := lastTick[sym := now];
      engine.Touch(sym, now);
      var tier := engine.GetTier(sym, now);
      return Some(Task(sym, enriched, i.source, i.mirrors, i.open, now, tier, i.emitEvent && i.changed));
    }

    method MaybeEmit(symbol: string, tier: Tier, queueSize: nat, now: real) returns (outcome: Outcome)
      modifies this`lastEmit
      ensures outcome == old(EmitOutcome(Contents(), symbol, tier, queueSize, now))
      ensures Contents() == old(AfterEmit(Contents(), symbol, tier, queueSize, now))
    {
      if queueSize >= QUEUE_SHED && tier.Cold? {
        return Shed;
      }
      var interval := EmitInterval(tier);
      var last := if symbol in lastEmit then lastEmit[symbol] else 0.0;
      if interval > 0.0 && now - last < interval {
        return Throttled;
      }
      lastEmit := lastEmit[symbol := now];
      return Emitted;
    }

    method WriteMirrors(t: Task, now: real)
      modifies this`authority, this`lastTick
      ensures Contents() == old(AfterMirrors(Contents(), t, t.mirrors, now))
    {
      ghost var before := Contents();
      for n := 0 to |t.mirrors|
        invariant Contents() == AfterMirrors(before, t, t.mirrors[..n], now)
      {
        assert t.mirrors[..n + 1][..n] == t.mirrors[..n];
        var alias := t.mirrors[n];
        if alias == "" || alias == t.sym {
          continue;
        }
        var name := Normalize(alias);
        if ShouldAccept(Lookup(authority, name), t.enriched.(symbol := name), t.source, t.open, now) {
          authority := authority[name := t.enriched.(symbol := name)];
          lastTick := lastTick[name := t.now];
        }
      }
      assert t.mirrors[..|t.mirrors|] == t.mirrors;
    }
  }
}
