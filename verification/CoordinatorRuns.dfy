/** Interleaved runs of quote ingestion: any number of tasks in flight, their atomic blocks in any
order (backend/market/quote_coordinator.py). */
module CoordinatorRuns {
  import opened Basics
  import opened Text
  import opened SymbolPriority
  import opened QuoteRouter
  import opened QuoteCoordinator

  datatype Emission = Emission(symbol: string, tier: Tier, at: real)

  datatype System = System(reg: Registry, tasks: seq<Task>, emits: seq<Emission>, clock: real)

  /** One atomic block of some task, or a tier registration. */
  datatype Action =
    | Begin(i: Ingest, now: real)
    | Emit(k: nat, queueSize: nat, now: real)
    | Mirror(k: nat, now: real)
    | Register(symbol: string, tier: Tier, now: real)

  predicate CanAct(s: System, a: Action) {
    && s.clock <= a.now
    && match a
       case Emit(k, _, _) => k < |s.tasks| && s.tasks[k].emit
       case Mirror(k, _) => k < |s.tasks| && !s.tasks[k].emit
       case _ => true
  }

  function AfterBegin(s: System, i: Ingest, now: real): System {
    if Accepts(s.reg, i, now)
    then System(AfterAccept(s.reg, i, now), s.tasks + [TaskFor(s.reg, i, now)], s.emits, now)
    else s.(clock := now)
  }

  function Act(s: System, a: Action): System
    requires CanAct(s, a)
  {
    match a
    case Begin(i, now) => AfterBegin(s, i, now)
    case Emit(k, queueSize, now) =>
      var t := s.tasks[k];
      var emits := if EmitOutcome(s.reg, t.sym, t.tier, queueSize, now).Emitted?
                   then s.emits + [Emission(t.sym, t.tier, now)] else s.emits;
      System(AfterEmit(s.reg, t.sym, t.tier, queueSize, now), s.tasks[k := t.(emit := false)], emits, now)
    case Mirror(k, now) =>
      System(AfterMirrors(s.reg, s.tasks[k], s.tasks[k].mirrors, now),
             s.tasks[..k] + s.tasks[k + 1..], s.emits, now)
    case Register(symbol, tier, now) =>
      s.(reg := s.reg.(priorities := Registered(s.reg.priorities, symbol, tier, now)), clock := now)
  }

  /** `trace` is a run: each state follows from the one before by the action between them. */
  ghost predicate IsRun(trace: seq<System>, actions: seq<Action>) {
    && |trace| == |actions| + 1
    && forall n :: 0 <= n < |actions| ==> CanAct(trace[n], actions[n]) && trace[n + 1] == Act(trace[n], actions[n])
  }

  lemma RunPrefix(trace: seq<System>, actions: seq<Action>)
    requires IsRun(trace, actions) && actions != []
    ensures IsRun(trace[..|actions|], actions[..|actions| - 1])
  {
  }

  // ---------------------------------------------------------------------------------------
  // Comparing stored quotes
  // ---------------------------------------------------------------------------------------

  predicate Timed(q: Quote) { ParseTs(q).Some? }

  /** Newer by more than the tolerance.  Unlike acceptance, this is transitive. */
  predicate Newer(a: Quote, b: Quote) {
    Timed(a) && Timed(b) && ParseTs(a).value > ParseTs(b).value + TOLERANCE
  }

  /** Equal but for the symbol. */
  predicate Same(a: Quote, b: Quote) { a == b.(symbol := a.symbol) }

  lemma NewerDecides(a: Quote, b: Quote, source: string, open: bool, now: real)
    requires Newer(a, b)
    ensures ShouldAccept(Some(b), a, source, open, now)
    ensures !ShouldAccept(Some(a), b, source, open, now)
  {
  }

  lemma SameIsRejected(a: Quote, b: Quote, open: bool, now: real)
    requires Same(a, b) && Timed(b)
    ensures !ShouldAccept(Some(a), b, b.source, open, now)
  {
  }

  /** A quote without a sequence number only wins by being newer. */
  lemma UnsequencedMustBeNewer(a: Quote, b: Quote, source: string, open: bool, now: real)
    requires Timed(a) && Timed(b) && b.sequence == 0 && a.sequence >= 1
    requires ShouldAccept(Some(a), b, source, open, now)
    ensures Newer(b, a)
  {
  }

  // ---------------------------------------------------------------------------------------
  // The mirror block
  // ---------------------------------------------------------------------------------------

  /** What one mirror write makes of an alias entry. */
  function Merged(entry: Option<Quote>, q: Quote, t: Task, now: real): Option<Quote> {
    if ShouldAccept(entry, q, t.source, t.open, now) then Some(q) else entry
  }

  lemma NamesAppend(mirrors: seq<string>, alias: string, sym: string)
    ensures Names(mirrors + [alias], sym) ==
            Names(mirrors, sym) + (if alias != "" && alias != sym then {Normalize(alias)} else {})
  {
    var all := mirrors + [alias];
    forall x | x in Names(mirrors, sym) ensures x in Names(all, sym) {
      var i :| 0 <= i < |mirrors| && mirrors[i] != "" && mirrors[i] != sym && Normalize(mirrors[i]) == x;
      assert all[i] == mirrors[i];
    }
    if alias != "" && alias != sym {
      assert all[|mirrors|] == alias;
    }
  }

  /** The loop writes nothing but the listed names. */
  lemma {:induction false} MirrorsElsewhere(r: Registry, t: Task, mirrors: seq<string>, now: real, name: string)
    requires name !in Names(mirrors, t.sym)
    ensures Lookup(AfterMirrors(r, t, mirrors, now).authority, name) == Lookup(r.authority, name)
    ensures Lookup(AfterMirrors(r, t, mirrors, now).lastTick, name) == Lookup(r.lastTick, name)
  {
    if mirrors != [] {
      var before, alias := mirrors[..|mirrors| - 1], mirrors[|mirrors| - 1];
      assert before + [alias] == mirrors;
      NamesAppend(before, alias, t.sym);
      MirrorsElsewhere(r, t, before, now, name);
    }
  }

  lemma {:induction false} MirrorsOnlyAuthority(r: Registry, t: Task, mirrors: seq<string>, now: real)
    ensures var r' := AfterMirrors(r, t, mirrors, now);
            r'.sequences == r.sequences && r'.lastEmit == r.lastEmit && r'.priorities == r.priorities
  {
    if mirrors != [] {
      MirrorsOnlyAuthority(r, t, mirrors[..|mirrors| - 1], now);
    }
  }

  /** The loop merges each listed name once, however often the list repeats it. */
  lemma {:induction false} MirrorsAt(r: Registry, t: Task, mirrors: seq<string>, now: real, name: string)
    requires Timed(t.enriched) && t.enriched.source == t.source
    requires name in Names(mirrors, t.sym)
    ensures Lookup(AfterMirrors(r, t, mirrors, now).authority, name) ==
            Merged(Lookup(r.authority, name), t.enriched.(symbol := name), t, now)
    ensures Lookup(AfterMirrors(r, t, mirrors, now).lastTick, name) ==
            if ShouldAccept(Lookup(r.authority, name), t.enriched.(symbol := name), t.source, t.open, now)
            then Some(t.now) else Lookup(r.lastTick, name)
  {
    var before, alias := mirrors[..|mirrors| - 1], mirrors[|mirrors| - 1];
    assert before + [alias] == mirrors;
    NamesAppend(before, alias, t.sym);
    if name in Names(before, t.sym) {
      MirrorsAt(r, t, before, now, name);
      SameIsRejected(t.enriched.(symbol := name), t.enriched.(symbol := name), t.open, now);
    } else {
      MirrorsElsewhere(r, t, before, now, name);
    }
  }

  // ---------------------------------------------------------------------------------------
  // The canonical entry
  // ---------------------------------------------------------------------------------------

  /** Ingests of `c` are timestamped and survive re-parsing; ingests of other symbols do not mirror
      to `c`.  In a plain run the quotes of `c` carry no sequence number; in any other run its
      ingests do not list `c` itself, in another spelling, among their mirrors. */
  predicate Undisturbed(a: Action, c: string, plain: bool) {
    a.Begin? ==>
      if SymbolOf(a.i) == c then
        && Timed(a.i.quote) && Reparses(a.i.quote)
        && (if plain then a.i.quote.sequence == 0 else c !in Names(a.i.mirrors, c))
      else c !in Names(a.i.mirrors, SymbolOf(a.i))
  }

  ghost predicate TaskFits(r: Registry, t: Task, c: string, plain: bool) {
    if t.sym == c then
      && c in r.authority && Timed(t.enriched) && t.enriched.source == t.source
      && t.enriched.sequence <= r.authority[c].sequence
      && (t.enriched.sequence == r.authority[c].sequence ==> t.enriched == r.authority[c])
      && (if plain then t.enriched == r.authority[c] || Newer(r.authority[c], t.enriched)
          else c !in Names(t.mirrors, c))
    else c !in Names(t.mirrors, t.sym)
  }

  ghost predicate EntryFits(r: Registry, c: string) {
    if c in r.authority then
      Timed(r.authority[c]) && c in r.sequences && r.sequences[c] == r.authority[c].sequence >= 1
    else c !in r.sequences
  }

  ghost predicate Canonical(s: System, c: string, plain: bool) {
    EntryFits(s.reg, c) && forall k :: 0 <= k < |s.tasks| ==> TaskFits(s.reg, s.tasks[k], c, plain)
  }

  /** An accepted quote of `c` takes the next sequence number and is not older than the stored one by
      more than the tolerance; without a sequence number of its own it is newer by more than that. */
  lemma AcceptedIsNewer(r: Registry, i: Ingest, now: real, c: string)
    requires EntryFits(r, c) && SymbolOf(i) == c && Accepts(r, i, now)
    requires Timed(i.quote) && Reparses(i.quote)
    ensures Timed(Stored(r, i, now)) && Stored(r, i, now).source == i.source
    ensures Stored(r, i, now).sequence == NextSequence(r, c)
    ensures c in r.authority ==> !Newer(r.authority[c], Stored(r, i, now))
    ensures c in r.authority && i.quote.sequence == 0 ==> Newer(Stored(r, i, now), r.authority[c])
    ensures EntryFits(AfterAccept(r, i, now), c)
  {
    var q := Candidate(i);
    assert ParseTs(q) == ParseTs(i.quote) && Reparses(q);
    EnrichmentKeepsTimestamp(r.priorities, c, q, i.source, NextSequence(r, c), i.open, now, now);
    if c in r.authority && i.quote.sequence == 0 {
      UnsequencedMustBeNewer(r.authority[c], q, i.source, i.open, now);
    }
  }

  /** A mirror block leaves the canonical entry alone, even if the list names it. */
  lemma MirrorsSpareCanonical(r: Registry, t: Task, now: real, c: string, plain: bool)
    requires TaskFits(r, t, c, plain)
    ensures Lookup(AfterMirrors(r, t, t.mirrors, now).authority, c) == Lookup(r.authority, c)
    ensures Lookup(AfterMirrors(r, t, t.mirrors, now).lastTick, c) == Lookup(r.lastTick, c)
  {
    if c in Names(t.mirrors, t.sym) {
      MirrorsAt(r, t, t.mirrors, now, c);
      var q := t.enriched.(symbol := c);
      if Newer(r.authority[c], t.enriched) {
        NewerDecides(r.authority[c], q, t.source, t.open, now);
      } else {
        SameIsRejected(r.authority[c], q, t.open, now);
      }
    } else {
      MirrorsElsewhere(r, t, t.mirrors, now, c);
    }
  }

  lemma CanonicalBegin(s: System, i: Ingest, now: real, c: string, plain: bool)
    requires Canonical(s, c, plain) && Undisturbed(Begin(i, now), c, plain)
    ensures Canonical(AfterBegin(s, i, now), c, plain)
  {
    if Accepts(s.reg, i, now) {
      var s' := AfterBegin(s, i, now);
      if SymbolOf(i) == c {
        AcceptedIsNewer(s.reg, i, now, c);
      }
      forall k | 0 <= k < |s'.tasks| ensures TaskFits(s'.reg, s'.tasks[k], c, plain) {
        if k < |s.tasks| {
          assert TaskFits(s.reg, s.tasks[k], c, plain);
        }
      }
    } else {
      assert forall k :: 0 <= k < |s.tasks| ==> TaskFits(s.reg, s.tasks[k], c, plain);
    }
  }

  lemma CanonicalStep(s: System, a: Action, c: string, plain: bool)
    requires Canonical(s, c, plain) && CanAct(s, a) && Undisturbed(a, c, plain)
    ensures Canonical(Act(s, a), c, plain)
  {
    match a
    case Begin(i, now) => CanonicalBegin(s, i, now, c, plain);
    case Emit(k, queueSize, now) =>
      var s' := Act(s, a);
      forall j | 0 <= j < |s'.tasks| ensures TaskFits(s'.reg, s'.tasks[j], c, plain) {
        assert TaskFits(s.reg, s.tasks[j], c, plain);
      }
    case Mirror(k, now) =>
      assert TaskFits(s.reg, s.tasks[k], c, plain);
      MirrorsSpareCanonical(s.reg, s.tasks[k], now, c, plain);
      MirrorsOnlyAuthority(s.reg, s.tasks[k], s.tasks[k].mirrors, now);
      var s' := Act(s, a);
      assert Lookup(s'.reg.authority, c) == Lookup(s.reg.authority, c);
      forall j | 0 <= j < |s'.tasks| ensures TaskFits(s'.reg, s'.tasks[j], c, plain) {
        assert TaskFits(s.reg, s.tasks[if j < k then j else j + 1], c, plain);
      }
    case Register(_, _, _) =>
      assert forall k :: 0 <= k < |s.tasks| ==> TaskFits(s.reg, s.tasks[k], c, plain);
  }

  ghost predicate AllUndisturbed(actions: seq<Action>, c: string, plain: bool) {
    forall n :: 0 <= n < |actions| ==> Undisturbed(actions[n], c, plain)
  }

  lemma {:induction false} CanonicalOverRun(trace: seq<System>, actions: seq<Action>, c: string, plain: bool)
    requires IsRun(trace, actions) && AllUndisturbed(actions, c, plain) && Canonical(trace[0], c, plain)
    ensures forall n :: 0 <= n < |trace| ==> Canonical(trace[n], c, plain)
  {
    if actions != [] {
      RunPrefix(trace, actions);
      CanonicalOverRun(trace[..|actions|], actions[..|actions| - 1], c, plain);
      var n := |actions| - 1;
      assert Canonical(trace[..|actions|][n], c, plain);
      CanonicalStep(trace[n], actions[n], c, plain);
      forall m | 0 <= m < |trace| ensures Canonical(trace[m], c, plain) {
        if m < |actions| {
          assert trace[m] == trace[..|actions|][m];
        }
      }
    }
  }

  /** Did this action store a new quote of `c`? */
  predicate AcceptedHere(s: System, a: Action, c: string) {
    a.Begin? && SymbolOf(a.i) == c && Accepts(s.reg, a.i, a.now)
  }

  /** MAIN: under any interleaving every accepted ingest gives the authority entry the next sequence
      number and never a time older by more than the tolerance; in a plain run it raises the time by
      more than the tolerance.  Nothing else changes the entry. */
  lemma EveryAcceptRises(trace: seq<System>, actions: seq<Action>, c: string, plain: bool, n: nat)
    requires IsRun(trace, actions) && AllUndisturbed(actions, c, plain) && Canonical(trace[0], c, plain)
    requires n < |actions|
    ensures var before, after := trace[n].reg.authority, trace[n + 1].reg.authority;
            if AcceptedHere(trace[n], actions[n], c)
            then c in after && (c in before ==>
                   && after[c].sequence == before[c].sequence + 1
                   && !Newer(before[c], after[c])
                   && (plain ==> Newer(after[c], before[c])))
            else Lookup(after, c) == Lookup(before, c)
  {
    CanonicalOverRun(trace, actions, c, plain);
    assert Canonical(trace[n], c, plain);
    EntryStep(trace[n], actions[n], c, plain);
  }

  lemma EntryStep(s: System, a: Action, c: string, plain: bool)
    requires Canonical(s, c, plain) && CanAct(s, a) && Undisturbed(a, c, plain)
    ensures var before, after := s.reg.authority, Act(s, a).reg.authority;
            if AcceptedHere(s, a, c)
            then Lookup(after, c) == Some(Stored(s.reg, a.i, a.now)) && (c in before ==>
                   && after[c].sequence == before[c].sequence + 1
                   && !Newer(before[c], after[c])
                   && (plain ==> Newer(after[c], before[c])))
            else Lookup(after, c) == Lookup(before, c)
    ensures !AcceptedHere(s, a, c) ==> Lookup(Act(s, a).reg.lastTick, c) == Lookup(s.reg.lastTick, c)
  {
    match a
    case Begin(i, now) =>
      if AcceptedHere(s, a, c) {
        AcceptedIsNewer(s.reg, i, now, c);
      }
    case Emit(_, _, _) =>
    case Mirror(k, now) =>
      assert TaskFits(s.reg, s.tasks[k], c, plain);
      MirrorsSpareCanonical(s.reg, s.tasks[k], now, c, plain);
    case Register(_, _, _) =>
  }

  function Accepted(trace: seq<System>, actions: seq<Action>, c: string): nat
    requires |trace| == |actions| + 1
  {
    if actions == [] then 0
    else
      var n := |actions| - 1;
      Accepted(trace[..|actions|], actions[..n], c) + (if AcceptedHere(trace[n], actions[n], c) then 1 else 0)
  }

  /** Under any interleaving the counter of `c` goes up by the number of accepted ingests. */
  lemma {:induction false} CounterCountsAccepts(trace: seq<System>, actions: seq<Action>, c: string)
    requires IsRun(trace, actions)
    ensures var r, r', n := trace[0].reg, trace[|actions|].reg, Accepted(trace, actions, c);
            && NextSequence(r', c) == NextSequence(r, c) + n
            && (n == 0 ==> Lookup(r'.sequences, c) == Lookup(r.sequences, c))
  {
    if actions != [] {
      var n := |actions| - 1;
      RunPrefix(trace, actions);
      CounterCountsAccepts(trace[..|actions|], actions[..n], c);
      SequenceStep(trace[n], actions[n], c);
    }
  }

  /** MAIN: a symbol seen for the first time.  Under any interleaving `_sequences` and the stored
      `sequence` both equal the number of accepted ingests. */
  lemma SequenceCountsAccepts(trace: seq<System>, actions: seq<Action>, c: string, plain: bool)
    requires IsRun(trace, actions) && AllUndisturbed(actions, c, plain) && Canonical(trace[0], c, plain)
    requires c !in trace[0].reg.authority
    ensures var r, n := trace[|actions|].reg, Accepted(trace, actions, c);
            if n == 0 then c !in r.authority && c !in r.sequences
            else c in r.authority && c in r.sequences && r.authority[c].sequence == r.sequences[c] == n
  {
    CanonicalOverRun(trace, actions, c, plain);
    assert Canonical(trace[|actions|], c, plain);
    CounterCountsAccepts(trace, actions, c);
  }

  lemma SequenceStep(s: System, a: Action, c: string)
    requires CanAct(s, a)
    ensures var r, r' := s.reg.sequences, Act(s, a).reg.sequences;
            if AcceptedHere(s, a, c) then c in r' && r'[c] == NextSequence(s.reg, c)
            else Lookup(r', c) == Lookup(r, c)
  {
    if a.Mirror? {
      MirrorsOnlyAuthority(s.reg, s.tasks[a.k], s.tasks[a.k].mirrors, a.now);
    }
  }

  // ---------------------------------------------------------------------------------------
  // Emit cadence and tiers
  // ---------------------------------------------------------------------------------------

  ghost predicate Spaced(emits: seq<Emission>) {
    forall j, k :: 0 <= j < k < |emits| && emits[j].symbol == emits[k].symbol ==>
                   && (emits[k].tier.Warm? ==> emits[k].at >= emits[j].at + 0.25)
                   && (emits[k].tier.Cold? ==> emits[k].at >= emits[j].at + 1.0)
  }

  /** Every emission so far is at most as late as the recorded last emit of its symbol. */
  ghost predicate Recorded(s: System) {
    && (forall j :: 0 <= j < |s.emits| ==>
          s.emits[j].symbol in s.reg.lastEmit && s.emits[j].at <= s.reg.lastEmit[s.emits[j].symbol])
    && (forall x :: x in s.reg.lastEmit ==> s.reg.lastEmit[x] <= s.clock)
  }

  lemma CadenceStep(s: System, a: Action)
    requires CanAct(s, a) && Spaced(s.emits) && Recorded(s)
    ensures Spaced(Act(s, a).emits) && Recorded(Act(s, a))
  {
    if a.Mirror? {
      MirrorsOnlyAuthority(s.reg, s.tasks[a.k], s.tasks[a.k].mirrors, a.now);
    }
  }

  /** MAIN: over any run, an emit at WARM or COLD comes at least 0.25 s or 1 s after every earlier
      emit of the same symbol. */
  lemma {:induction false} EmitsAreSpaced(trace: seq<System>, actions: seq<Action>)
    requires IsRun(trace, actions) && trace[0].emits == [] && Recorded(trace[0])
    ensures Spaced(trace[|actions|].emits) && Recorded(trace[|actions|])
  {
    if actions != [] {
      var n := |actions| - 1;
      RunPrefix(trace, actions);
      EmitsAreSpaced(trace[..|actions|], actions[..n]);
      CadenceStep(trace[n], actions[n]);
    }
  }

  /** HOT is never throttled or shed: the emit block of a HOT task always emits. */
  lemma HotAlwaysEmits(s: System, k: nat, queueSize: nat, now: real)
    requires CanAct(s, Emit(k, queueSize, now)) && s.tasks[k].tier.Hot?
    ensures Act(s, Emit(k, queueSize, now)).emits == s.emits + [Emission(s.tasks[k].sym, Hot, now)]
  {
  }

  ghost predicate NoLower(p: Priorities, p': Priorities) {
    forall x :: x in p.tiers ==>
      && x in p'.tiers
      && (p.tiers[x] == Hot ==> p'.tiers[x] == Hot)
      && (p.tiers[x] == Warm ==> p'.tiers[x] != Cold)
  }

  /** MAIN: a registered tier never falls. */
  lemma {:induction false} TiersNeverFall(trace: seq<System>, actions: seq<Action>)
    requires IsRun(trace, actions)
    ensures NoLower(trace[0].reg.priorities, trace[|actions|].reg.priorities)
  {
    if actions != [] {
      var n := |actions| - 1;
      RunPrefix(trace, actions);
      TiersNeverFall(trace[..|actions|], actions[..n]);
      if actions[n].Mirror? {
        var t := trace[n].tasks[actions[n].k];
        MirrorsOnlyAuthority(trace[n].reg, t, t.mirrors, actions[n].now);
      }
    }
  }

  ghost predicate NoneCold(s: System) {
    && (forall x :: x in s.reg.priorities.tiers ==> !s.reg.priorities.tiers[x].Cold?)
    && (forall k :: 0 <= k < |s.tasks| ==> !s.tasks[k].tier.Cold?)
    && s.clock > 0.0
  }

  /** MAIN: if symbols are only registered HOT or WARM, no task ever carries the COLD tier, so no
      emit block takes the shed branch: the touch comes before the tier is read. */
  lemma {:induction false} NeverCold(trace: seq<System>, actions: seq<Action>)
    requires IsRun(trace, actions) && NoneCold(trace[0])
    requires forall n :: 0 <= n < |actions| && actions[n].Register? ==> !actions[n].tier.Cold?
    ensures NoneCold(trace[|actions|])
    ensures forall k, queueSize, now :: 0 <= k < |trace[|actions|].tasks| ==>
              var t := trace[|actions|].tasks[k];
              !EmitOutcome(trace[|actions|].reg, t.sym, t.tier, queueSize, now).Shed?
  {
    if actions != [] {
      var n := |actions| - 1;
      RunPrefix(trace, actions);
      NeverCold(trace[..|actions|], actions[..n]);
      NeverColdStep(trace[n], actions[n]);
    }
  }

  lemma NeverColdStep(s: System, a: Action)
    requires CanAct(s, a) && NoneCold(s) && (a.Register? ==> !a.tier.Cold?)
    ensures NoneCold(Act(s, a))
  {
    match a
    case Begin(i, now) => NormalizeIsNormal(if i.symbol != "" then i.symbol else i.quote.symbol);
    case Emit(_, _, _) =>
    case Mirror(k, now) => MirrorsOnlyAuthority(s.reg, s.tasks[k], s.tasks[k].mirrors, now);
    case Register(_, _, _) =>
  }

  /** The quote is labelled before the touch and handled after it.  The two tiers agree if and only if
      the symbol is registered or was touched less than 600 s ago; otherwise the quote is handled as
      WARM but labelled COLD, and the event bus sheds by the label. */
  lemma LabelMatchesTierIff(r: Registry, i: Ingest, now: real)
    requires now > 0.0 && SymbolOf(i) != ""
    ensures var c, p, t := SymbolOf(i), r.priorities, TaskFor(r, i, now);
            && (t.enriched.tier == t.tier <==>
                c in p.tiers || (c in p.lastTouch && p.lastTouch[c] != 0.0 && now - p.lastTouch[c] < TOUCH_DECAY))
            && (t.enriched.tier != t.tier ==> t.tier.Warm? && t.enriched.tier.Cold?)
  {
    NormalizeIsNormal(if i.symbol != "" then i.symbol else i.quote.symbol);
  }
}
