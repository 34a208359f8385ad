/** What the entries of the quote authority say, and which ingests are emitted, over interleaved runs of
backend/market/quote_coordinator.py, in terms of the quotes that came in. */
module QuoteContents {
  import opened Basics
  import opened Text
  import opened SymbolPriority
  import opened QuoteRouter
  import opened QuoteCoordinator
  import opened CoordinatorRuns

  // ---------------------------------------------------------------------------------------
  // The stored quote
  // ---------------------------------------------------------------------------------------

  /** An official close is labelled EOD, a frozen quote or one taken with the market closed FROZEN. */
  function FreshLabel(i: Ingest): Freshness {
    var source := Lower(i.quote.source);
    if source in {"official_eod_close", "eod"} then Eod
    else if source in {"frozen", "history_snapshot"} || !i.open then Frozen
    else Live
  }

  /** The entry of `c` is the quote that `i` brought, as accepted at `now`. */
  ghost predicate Carries(r: Registry, c: string, i: Ingest, now: real) {
    && c in r.authority && Lookup(r.lastTick, c) == Some(now)
    && KeepsContent(r.authority[c], i.quote)
    && r.authority[c].symbol == c && r.authority[c].source == i.source && r.authority[c].coordinatorTs == now
    && (now != 0.0 ==> r.authority[c].freshness == FreshLabel(i))
  }

  lemma AcceptCarries(s: System, i: Ingest, now: real, c: string)
    requires AcceptedHere(s, Begin(i, now), c)
    ensures Carries(AfterBegin(s, i, now).reg, c, i, now)
    ensures c == Normalize(if i.symbol != "" then i.symbol else i.quote.symbol)
  {
    var q := i.quote.(symbol := c);
    StoredFields(s.reg.priorities, c, q, i.source, NextSequence(s.reg, c), i.open, now, now);
    FreshnessWhenClosed(s.reg.priorities, c, Candidate(i), i.open, now, now);
    if now != 0.0 && FreshLabel(i) == Live {
      FreshnessByAge(s.reg.priorities, c, Candidate(i), now, now);
    }
  }

  /** MAIN: in any run the entry of `c` is what its last accepted ingest brought: price, other fields, source
      and arrival time, whatever else happened since.  Stored quotes are never labelled delayed or stale. */
  lemma {:induction false} EntryIsLastAccepted(trace: seq<System>, actions: seq<Action>, c: string, plain: bool, n: nat)
    requires IsRun(trace, actions) && AllUndisturbed(actions, c, plain) && Canonical(trace[0], c, plain)
    requires n < |actions| && AcceptedHere(trace[n], actions[n], c)
    requires forall m :: n < m < |actions| ==> !AcceptedHere(trace[m], actions[m], c)
    ensures Carries(trace[|actions|].reg, c, actions[n].i, actions[n].now)
  {
    var last := |actions| - 1;
    if n == last {
      AcceptCarries(trace[n], actions[n].i, actions[n].now, c);
    } else {
      RunPrefix(trace, actions);
      EntryIsLastAccepted(trace[..|actions|], actions[..last], c, plain, n);
      CanonicalOverRun(trace, actions, c, plain);
      assert Canonical(trace[last], c, plain);
      EntryStep(trace[last], actions[last], c, plain);
    }
  }

  /** MAIN: when an ingest is accepted, by its own fields.  Its price is the first nonzero one. */
  lemma AcceptedExactlyIf(s: System, i: Ingest, now: real, c: string)
    requires c == Normalize(if i.symbol != "" then i.symbol else i.quote.symbol)
    ensures c == "" ==> !Accepts(s.reg, i, now)
    ensures c != "" && c !in s.reg.authority ==> Accepts(s.reg, i, now)
    ensures c != "" && c in s.reg.authority ==>
              var q, e := i.quote, s.reg.authority[c];
              var step := (if ParseTs(q).Some? then ParseTs(q).value else now)
                          - (if ParseTs(e).Some? then ParseTs(e).value else now);
              var rank, oldRank := SourceRank(i.source, i.open), SourceRank(e.source, i.open);
              var price := if NonZero(q.price) then q.price else if NonZero(q.ltp) then q.ltp
                           else if NonZero(q.lp) then q.lp else q.ltp;
              var oldPrice := if NonZero(e.price) then e.price else e.ltp;
              Accepts(s.reg, i, now) <==>
              || step > 0.001
              || (-0.001 <= step && q.sequence > e.sequence)
              || (-0.001 <= step && q.sequence == e.sequence && rank > oldRank)
              || (-0.001 <= step && q.sequence == e.sequence && rank == oldRank && price.Some? && price != oldPrice)
  {
    if c in s.reg.authority {
      AcceptsLexicographically(s.reg.authority[c], Candidate(i), i.source, i.open, now);
    }
  }

  /** The task of an accepted ingest: the stored quote, its mirrors, and an emit to come exactly if the
      caller asked for one and reported a change. */
  lemma AcceptStartsTask(s: System, i: Ingest, now: real, c: string)
    requires AcceptedHere(s, Begin(i, now), c)
    ensures var s' := AfterBegin(s, i, now);
            && |s'.tasks| == |s.tasks| + 1 && s'.tasks[..|s.tasks|] == s.tasks
            && var t := s'.tasks[|s.tasks|];
               && t.sym == c && c in s'.reg.authority && t.enriched == s'.reg.authority[c]
               && t.source == i.source && t.mirrors == i.mirrors && t.open == i.open && t.now == now
               && (t.emit <==> i.emitEvent && i.changed)
               && t.tier == TierOf(s'.reg.priorities, c, now)
  {
  }

  /** MAIN: every mirror that is listed, in any spelling, is offered the stored quote under its own name, by the
      same rule as any other quote; one that takes it shows everything else as stored. */
  lemma MirrorIsOffered(r: Registry, t: Task, now: real, m: string)
    requires Timed(t.enriched) && t.enriched.source == t.source
    requires m in t.mirrors && m != "" && m != t.sym
    ensures var name := Normalize(m);
            var offered, r' := t.enriched.(symbol := name), AfterMirrors(r, t, t.mirrors, now);
            if ShouldAccept(Lookup(r.authority, name), offered, t.source, t.open, now)
            then Lookup(r'.authority, name) == Some(offered) && Lookup(r'.lastTick, name) == Some(t.now)
            else Lookup(r'.authority, name) == Lookup(r.authority, name)
                 && Lookup(r'.lastTick, name) == Lookup(r.lastTick, name)
  {
    var i :| 0 <= i < |t.mirrors| && t.mirrors[i] == m;
    assert Normalize(m) in Names(t.mirrors, t.sym);
    MirrorsAt(r, t, t.mirrors, now, Normalize(m));
  }

  // ---------------------------------------------------------------------------------------
  // Which emit blocks emit
  // ---------------------------------------------------------------------------------------

  ghost predicate EmittedAt(emits: seq<Emission>, x: string, at: real) {
    exists j :: 0 <= j < |emits| && emits[j].symbol == x && emits[j].at == at
  }

  /** The recorded last emit of a symbol is its latest emission. */
  ghost predicate EmitsKnown(s: System) {
    && (forall j :: 0 <= j < |s.emits| ==>
          s.emits[j].symbol in s.reg.lastEmit && s.emits[j].at <= s.reg.lastEmit[s.emits[j].symbol] <= s.clock)
    && (forall x :: x in s.reg.lastEmit ==> EmittedAt(s.emits, x, s.reg.lastEmit[x]))
  }

  lemma EmittedStays(emits: seq<Emission>, e: Emission, x: string, at: real)
    requires EmittedAt(emits, x, at) || (e.symbol == x && e.at == at)
    ensures EmittedAt(emits + [e], x, at)
  {
    var all := emits + [e];
    if EmittedAt(emits, x, at) {
      var j :| 0 <= j < |emits| && emits[j].symbol == x && emits[j].at == at;
      assert all[j] == emits[j];
    } else {
      assert all[|emits|] == e;
    }
  }

  lemma KnownStep(s: System, a: Action)
    requires CanAct(s, a) && EmitsKnown(s)
    ensures EmitsKnown(Act(s, a))
  {
    match a
    case Emit(k, queueSize, now) =>
      var t, s' := s.tasks[k], Act(s, a);
      if EmitOutcome(s.reg, t.sym, t.tier, queueSize, now).Emitted? {
        forall x | x in s'.reg.lastEmit ensures EmittedAt(s'.emits, x, s'.reg.lastEmit[x]) {
          EmittedStays(s.emits, Emission(t.sym, t.tier, now), x, s'.reg.lastEmit[x]);
        }
      }
    case Mirror(k, now) => MirrorsOnlyAuthority(s.reg, s.tasks[k], s.tasks[k].mirrors, now);
    case _ =>
  }

  lemma {:induction false} KnownOverRun(trace: seq<System>, actions: seq<Action>)
    requires IsRun(trace, actions) && EmitsKnown(trace[0])
    ensures EmitsKnown(trace[|actions|])
  {
    if actions != [] {
      RunPrefix(trace, actions);
      KnownOverRun(trace[..|actions|], actions[..|actions| - 1]);
      KnownStep(trace[|actions| - 1], actions[|actions| - 1]);
    }
  }

  /** No emission of the symbol is within the interval of the tier: 0.25 s if WARM, 1 s if COLD. */
  ghost predicate Clear(emits: seq<Emission>, t: Task, now: real) {
    forall j :: 0 <= j < |emits| && emits[j].symbol == t.sym ==>
      (t.tier.Warm? ==> now >= emits[j].at + 0.25) && (t.tier.Cold? ==> now >= emits[j].at + 1.0)
  }

  /** MAIN: which emit blocks emit.  After any run from an empty record, an emit block emits its symbol, once,
      if and only if it is not a COLD one that meets a queue of 250 or more, and no earlier emission of the
      symbol is too recent for its tier. */
  lemma EmitsExactlyIf(trace: seq<System>, actions: seq<Action>, k: nat, queueSize: nat, now: real)
    requires IsRun(trace, actions) && trace[0].emits == [] && trace[0].reg.lastEmit == map[]
    requires CanAct(trace[|actions|], Emit(k, queueSize, now)) && now >= 1.0
    ensures var s := trace[|actions|];
            var s', t := Act(s, Emit(k, queueSize, now)), s.tasks[k];
            && s'.tasks == s.tasks[k := t.(emit := false)] && s'.reg.authority == s.reg.authority
            && s'.emits == if !(t.tier.Cold? && queueSize >= 250) && Clear(s.emits, t, now)
                           then s.emits + [Emission(t.sym, t.tier, now)] else s.emits
  {
    KnownOverRun(trace, actions);
    var s := trace[|actions|];
    var t := s.tasks[k];
    if t.sym in s.reg.lastEmit {
      assert EmittedAt(s.emits, t.sym, s.reg.lastEmit[t.sym]);
    }
  }
}
