/** When the mirror aliases of a symbol end up equal to its canonical entry, over interleaved runs
of backend/market/quote_coordinator.py.

The alias takes part in a merge of its own: each mirror block offers it the quote its ingest stored,
in whatever order the blocks happen to run.  Stored sequence numbers rise with every accepted
ingest, so a later quote wins in either order unless it is older by more than the tolerance. */
module MirrorConvergence {
  import opened Basics
  import opened Text
  import opened SymbolPriority
  import opened QuoteRouter
  import opened QuoteCoordinator
  import opened CoordinatorRuns

  /** Nobody but the ingests of `c` writes `alias`. */
  predicate SoleWriter(a: Action, c: string, alias: string) {
    a.Begin? && SymbolOf(a.i) != c ==> SymbolOf(a.i) != alias && alias !in Names(a.i.mirrors, SymbolOf(a.i))
  }

  ghost predicate AllSoleWriter(actions: seq<Action>, c: string, alias: string) {
    forall n :: 0 <= n < |actions| ==> SoleWriter(actions[n], c, alias)
  }

  /** A task of `c` that will offer its quote to `alias`. */
  predicate Heads(t: Task, c: string, alias: string) {
    t.sym == c && alias in Names(t.mirrors, c)
  }

  /** The alias holds nothing, the current quote, or one stored before it. */
  ghost predicate AliasBehind(s: System, c: string, alias: string) {
    alias in s.reg.authority ==>
      && c in s.reg.authority
      && s.reg.authority[alias].symbol == alias && Timed(s.reg.authority[alias])
      && s.reg.authority[alias].sequence <= s.reg.authority[c].sequence
      && (s.reg.authority[alias].sequence == s.reg.authority[c].sequence ==>
            Same(s.reg.authority[alias], s.reg.authority[c]))
  }

  ghost predicate Agreed(s: System, c: string, alias: string) {
    if c in s.reg.authority
    then Lookup(s.reg.authority, alias) == Some(s.reg.authority[c].(symbol := alias))
    else alias !in s.reg.authority
  }

  ghost predicate NoTaskOf(s: System, c: string) {
    forall k :: 0 <= k < |s.tasks| ==> s.tasks[k].sym != c
  }

  // ---------------------------------------------------------------------------------------
  // One merge
  // ---------------------------------------------------------------------------------------

  /** The later of two stored quotes wins in either order, unless the earlier is clearly newer. */
  lemma LaterWins(early: Quote, late: Quote, source: string, open: bool, now: real)
    requires Timed(early) && Timed(late) && early.sequence < late.sequence && !Newer(early, late)
    ensures ShouldAccept(Some(early), late, source, open, now)
    ensures !ShouldAccept(Some(late), early, source, open, now)
  {
  }

  /** What a mirror block leaves in an alias it offers its quote to. */
  lemma MirrorMerges(s: System, k: nat, now: real, c: string, alias: string, plain: bool)
    requires Canonical(s, c, plain) && k < |s.tasks| && Heads(s.tasks[k], c, alias)
    ensures Lookup(AfterMirrors(s.reg, s.tasks[k], s.tasks[k].mirrors, now).authority, alias) ==
            Merged(Lookup(s.reg.authority, alias), s.tasks[k].enriched.(symbol := alias), s.tasks[k], now)
  {
    assert TaskFits(s.reg, s.tasks[k], c, plain);
    MirrorsAt(s.reg, s.tasks[k], s.tasks[k].mirrors, now, alias);
  }

  // ---------------------------------------------------------------------------------------
  // The invariant, for a quote `last` that is to be the final one
  // ---------------------------------------------------------------------------------------

  ghost predicate TaskHarmless(t: Task, c: string, alias: string, last: Quote) {
    if t.sym == c then alias in Names(t.mirrors, c) ==> !Newer(t.enriched, last)
    else alias !in Names(t.mirrors, t.sym)
  }

  ghost predicate TasksHarmless(s: System, c: string, alias: string, last: Quote) {
    forall k :: 0 <= k < |s.tasks| ==> TaskHarmless(s.tasks[k], c, alias, last)
  }

  ghost predicate Owes(s: System, c: string, alias: string, k: nat) {
    && k < |s.tasks| && Heads(s.tasks[k], c, alias)
    && c in s.reg.authority && s.tasks[k].enriched == s.reg.authority[c]
  }

  /** Some task still has to offer the current canonical quote to the alias. */
  ghost predicate Owed(s: System, c: string, alias: string) {
    exists k: nat :: Owes(s, c, alias, k)
  }

  ghost predicate AliasHarmless(s: System, c: string, alias: string, last: Quote) {
    && AliasBehind(s, c, alias)
    && (alias in s.reg.authority ==> !Newer(s.reg.authority[alias], last))
  }

  ghost predicate Converging(s: System, c: string, alias: string, last: Quote, plain: bool) {
    && Canonical(s, c, plain)
    && TasksHarmless(s, c, alias, last)
    && AliasHarmless(s, c, alias, last)
    && (Lookup(s.reg.authority, c) == Some(last) ==> Agreed(s, c, alias) || Owed(s, c, alias))
  }

  /** An accepted quote of `c` is not clearly newer than `last` if it heads for the alias, and is not
      `last` if it does not. */
  ghost predicate StepFair(s: System, a: Action, c: string, alias: string, last: Quote) {
    AcceptedHere(s, a, c) ==>
      if alias in Names(a.i.mirrors, c) then !Newer(Stored(s.reg, a.i, a.now), last)
      else Stored(s.reg, a.i, a.now) != last
  }

  lemma OwnBegin(s: System, a: Action, c: string, alias: string, last: Quote, plain: bool)
    requires Converging(s, c, alias, last, plain) && alias != c && AcceptedHere(s, a, c)
    requires CanAct(s, a) && Undisturbed(a, c, plain) && StepFair(s, a, c, alias, last)
    ensures Converging(Act(s, a), c, alias, last, plain)
  {
    var s', t, n := Act(s, a), TaskFor(s.reg, a.i, a.now), |s.tasks|;
    CanonicalStep(s, a, c, plain);
    EntryStep(s, a, c, plain);
    assert s'.tasks == s.tasks + [t] && s'.reg.authority == s.reg.authority[c := t.enriched];
    assert forall k :: 0 <= k < n ==> s'.tasks[k] == s.tasks[k];
    assert s'.tasks[n] == t;
    if t.enriched == last {
      assert Owes(s', c, alias, n);
    }
  }

  /** A step that leaves both entries alone and finishes no task of `c`. */
  lemma QuietStep(s: System, s': System, c: string, alias: string, last: Quote, plain: bool)
    requires Converging(s, c, alias, last, plain) && Canonical(s', c, plain) && TasksHarmless(s', c, alias, last)
    requires Lookup(s'.reg.authority, c) == Lookup(s.reg.authority, c)
    requires Lookup(s'.reg.authority, alias) == Lookup(s.reg.authority, alias)
    requires Agreed(s, c, alias) || (Owed(s, c, alias) ==> Owed(s', c, alias))
    ensures Converging(s', c, alias, last, plain)
  {
  }

  lemma OtherBegin(s: System, a: Action, c: string, alias: string, last: Quote, plain: bool)
    requires Converging(s, c, alias, last, plain) && alias != c && a.Begin? && !AcceptedHere(s, a, c)
    requires CanAct(s, a) && Undisturbed(a, c, plain) && SoleWriter(a, c, alias)
    ensures Converging(Act(s, a), c, alias, last, plain)
  {
    var s' := Act(s, a);
    CanonicalStep(s, a, c, plain);
    assert forall k :: 0 <= k < |s.tasks| ==> s'.tasks[k] == s.tasks[k];
    if Owed(s, c, alias) {
      var k: nat :| Owes(s, c, alias, k);
      assert Owes(s', c, alias, k);
    }
    QuietStep(s, s', c, alias, last, plain);
  }

  lemma NoMirrorStep(s: System, a: Action, c: string, alias: string, last: Quote, plain: bool)
    requires Converging(s, c, alias, last, plain) && CanAct(s, a) && (a.Emit? || a.Register?)
    ensures Converging(Act(s, a), c, alias, last, plain)
  {
    var s' := Act(s, a);
    CanonicalStep(s, a, c, plain);
    assert forall k :: 0 <= k < |s.tasks| ==> TaskHarmless(s.tasks[k], c, alias, last);
    if Owed(s, c, alias) {
      var k: nat :| Owes(s, c, alias, k);
      assert Owes(s', c, alias, k);
    }
    QuietStep(s, s', c, alias, last, plain);
  }

  /** `s'` has the tasks of `s` without task `k`. */
  ghost predicate OneDone(s: System, s': System, k: nat) {
    k < |s.tasks| && s'.tasks == s.tasks[..k] + s.tasks[k + 1..]
  }

  lemma OneDoneHarmless(s: System, s': System, k: nat, c: string, alias: string, last: Quote)
    requires OneDone(s, s', k) && TasksHarmless(s, c, alias, last)
    ensures TasksHarmless(s', c, alias, last)
  {
    assert forall j :: 0 <= j < |s'.tasks| ==> s'.tasks[j] == s.tasks[if j < k then j else j + 1];
  }

  lemma OneDoneOwed(s: System, s': System, k: nat, c: string, alias: string)
    requires OneDone(s, s', k) && Owed(s, c, alias) && !Owes(s, c, alias, k)
    requires Lookup(s'.reg.authority, c) == Lookup(s.reg.authority, c)
    ensures Owed(s', c, alias)
  {
    var j: nat :| Owes(s, c, alias, j);
    assert Owes(s', c, alias, if j < k then j else j - 1);
  }

  lemma UnheadedMirror(s: System, k: nat, now: real, c: string, alias: string, last: Quote, plain: bool)
    requires Converging(s, c, alias, last, plain)
    requires CanAct(s, Mirror(k, now)) && !Heads(s.tasks[k], c, alias)
    ensures Converging(Act(s, Mirror(k, now)), c, alias, last, plain)
  {
    var s', t := Act(s, Mirror(k, now)), s.tasks[k];
    CanonicalStep(s, Mirror(k, now), c, plain);
    EntryStep(s, Mirror(k, now), c, plain);
    assert TaskHarmless(t, c, alias, last);
    MirrorsElsewhere(s.reg, t, t.mirrors, now, alias);
    OneDoneHarmless(s, s', k, c, alias, last);
    if Owed(s, c, alias) {
      OneDoneOwed(s, s', k, c, alias);
    }
    QuietStep(s, s', c, alias, last, plain);
  }

  /** Merging `q` into an alias that is behind `cur`. */
  lemma MergeKeeps(entry: Option<Quote>, q: Quote, cur: Quote, last: Quote, alias: string, t: Task, now: real)
    requires Timed(q) && Timed(cur) && q.symbol == alias && q.source == t.source && !Newer(q, last)
    requires q.sequence <= cur.sequence && (q.sequence == cur.sequence ==> q == cur.(symbol := alias))
    requires entry.Some? ==>
               && entry.value.symbol == alias && Timed(entry.value) && !Newer(entry.value, last)
               && entry.value.sequence <= cur.sequence
               && (entry.value.sequence == cur.sequence ==> Same(entry.value, cur))
    ensures var e := Merged(entry, q, t, now);
            && e.Some? && (e == Some(q) || e == entry)
            && (cur == last && (q == cur.(symbol := alias) || entry == Some(cur.(symbol := alias))) ==>
                  e == Some(cur.(symbol := alias)))
  {
    if cur == last && entry.Some? {
      var e := entry.value;
      if q == cur.(symbol := alias) && e.sequence < q.sequence {
        assert ParseTs(q) == ParseTs(last);
        LaterWins(e, q, t.source, t.open, now);
      } else if e == cur.(symbol := alias) && q.sequence < e.sequence {
        assert ParseTs(e) == ParseTs(last);
        LaterWins(q, e, t.source, t.open, now);
      }
    }
  }

  lemma HeadedMirror(s: System, k: nat, now: real, c: string, alias: string, last: Quote, plain: bool)
    requires Converging(s, c, alias, last, plain) && alias != c
    requires CanAct(s, Mirror(k, now)) && Heads(s.tasks[k], c, alias)
    ensures Converging(Act(s, Mirror(k, now)), c, alias, last, plain)
  {
    var s', t := Act(s, Mirror(k, now)), s.tasks[k];
    CanonicalStep(s, Mirror(k, now), c, plain);
    EntryStep(s, Mirror(k, now), c, plain);
    assert TaskFits(s.reg, t, c, plain) && TaskHarmless(t, c, alias, last);
    MirrorMerges(s, k, now, c, alias, plain);
    var cur, q, entry := s.reg.authority[c], t.enriched.(symbol := alias), Lookup(s.reg.authority, alias);
    MergeKeeps(entry, q, cur, last, alias, t, now);
    OneDoneHarmless(s, s', k, c, alias, last);
    if cur == last && !Agreed(s, c, alias) && !Owes(s, c, alias, k) {
      OneDoneOwed(s, s', k, c, alias);
    }
  }

  lemma ConvergingStep(s: System, a: Action, c: string, alias: string, last: Quote, plain: bool)
    requires Converging(s, c, alias, last, plain) && alias != c
    requires CanAct(s, a) && Undisturbed(a, c, plain) && SoleWriter(a, c, alias) && StepFair(s, a, c, alias, last)
    ensures Converging(Act(s, a), c, alias, last, plain)
  {
    match a
    case Begin(_, _) =>
      if AcceptedHere(s, a, c) {
        OwnBegin(s, a, c, alias, last, plain);
      } else {
        OtherBegin(s, a, c, alias, last, plain);
      }
    case Emit(_, _, _) => NoMirrorStep(s, a, c, alias, last, plain);
    case Mirror(k, now) =>
      if Heads(s.tasks[k], c, alias) {
        HeadedMirror(s, k, now, c, alias, last, plain);
      } else {
        UnheadedMirror(s, k, now, c, alias, last, plain);
      }
    case Register(_, _, _) => NoMirrorStep(s, a, c, alias, last, plain);
  }

  ghost predicate AllFair(trace: seq<System>, actions: seq<Action>, c: string, alias: string, last: Quote)
    requires |trace| == |actions| + 1
  {
    forall n :: 0 <= n < |actions| ==> StepFair(trace[n], actions[n], c, alias, last)
  }

  lemma {:induction false} ConvergingOverRun(trace: seq<System>, actions: seq<Action>, c: string, alias: string,
                                             last: Quote, plain: bool)
    requires IsRun(trace, actions) && alias != c
    requires AllUndisturbed(actions, c, plain) && AllSoleWriter(actions, c, alias)
    requires AllFair(trace, actions, c, alias, last)
    requires Converging(trace[0], c, alias, last, plain)
    ensures Converging(trace[|actions|], c, alias, last, plain)
  {
    if actions != [] {
      var n := |actions| - 1;
      RunPrefix(trace, actions);
      assert AllFair(trace[..|actions|], actions[..n], c, alias, last) by {
        assert forall m :: 0 <= m < n ==> StepFair(trace[m], actions[m], c, alias, last);
      }
      ConvergingOverRun(trace[..|actions|], actions[..n], c, alias, last, plain);
      ConvergingStep(trace[n], actions[n], c, alias, last, plain);
    }
  }

  // ---------------------------------------------------------------------------------------
  // Convergence of any run
  // ---------------------------------------------------------------------------------------

  /** No task of `c` is in flight, no other task writes `c` or `alias`, and the alias is behind. */
  ghost predicate Settled(s: System, c: string, alias: string) {
    && EntryFits(s.reg, c) && AliasBehind(s, c, alias) && NoTaskOf(s, c)
    && forall k :: 0 <= k < |s.tasks| ==>
         c !in Names(s.tasks[k].mirrors, s.tasks[k].sym) && alias !in Names(s.tasks[k].mirrors, s.tasks[k].sym)
  }

  const UNTIMED := Quote("", Absent, Absent, Absent, 0, "", None, None, None, Live, Cold, 0.0, 0)

  /** Over any run, whatever the times and mirror lists, the alias never gets ahead of the canonical
      entry, so the state assumed below is again reached whenever no ingest of `c` is in flight. */
  lemma AliasStaysBehind(trace: seq<System>, actions: seq<Action>, c: string, alias: string, plain: bool)
    requires IsRun(trace, actions) && alias != c
    requires AllUndisturbed(actions, c, plain) && AllSoleWriter(actions, c, alias)
    requires Settled(trace[0], c, alias)
    ensures EntryFits(trace[|actions|].reg, c) && AliasBehind(trace[|actions|], c, alias)
  {
    assert Canonical(trace[0], c, plain);
    CanonicalOverRun(trace, actions, c, plain);
    forall n | 0 <= n < |actions| && AcceptedHere(trace[n], actions[n], c)
      ensures Stored(trace[n].reg, actions[n].i, actions[n].now) != UNTIMED
    {
      assert Canonical(trace[n], c, plain) && Undisturbed(actions[n], c, plain);
      AcceptedIsNewer(trace[n].reg, actions[n].i, actions[n].now, c);
    }
    ConvergingOverRun(trace, actions, c, alias, UNTIMED, plain);
  }

  /** MAIN: mirror convergence.  Start from any state in which no ingest of `c` is in flight and the
      alias holds nothing or anything stored before; let any number of ingests of `c`, each with its
      own mirror list, interleave with any other traffic.  Once no ingest of `c` is in flight the
      alias equals the canonical entry but for its symbol, provided that
      - the alias agreed to begin with, or some ingest was accepted;
      - the ingest whose quote ends up in the authority lists the alias;
      - no accepted quote that lists the alias, and not the alias entry at the start, is more than
        the tolerance newer than that quote. */
  lemma MirrorsConverge(trace: seq<System>, actions: seq<Action>, c: string, alias: string, plain: bool)
    requires IsRun(trace, actions) && alias != c
    requires AllUndisturbed(actions, c, plain) && AllSoleWriter(actions, c, alias)
    requires Settled(trace[0], c, alias) && NoTaskOf(trace[|actions|], c)
    requires Agreed(trace[0], c, alias) || Accepted(trace, actions, c) > 0
    requires c in trace[|actions|].reg.authority ==>
               var last := trace[|actions|].reg.authority[c];
               && AllFair(trace, actions, c, alias, last)
               && (alias in trace[0].reg.authority ==> !Newer(trace[0].reg.authority[alias], last))
    ensures Agreed(trace[|actions|], c, alias)
  {
    var s, end := trace[0], trace[|actions|];
    assert Canonical(s, c, plain);
    CanonicalOverRun(trace, actions, c, plain);
    assert Canonical(end, c, plain);
    CounterCountsAccepts(trace, actions, c);
    if c in end.reg.authority {
      var last := end.reg.authority[c];
      ConvergingOverRun(trace, actions, c, alias, last, plain);
      assert !Owed(end, c, alias);
    } else {
      AliasStaysBehind(trace, actions, c, alias, plain);
    }
  }

  /** In a plain run the canonical entry only moves forward in time. */
  lemma {:induction false} PlainTimesRise(trace: seq<System>, actions: seq<Action>, c: string, m: nat)
    requires IsRun(trace, actions) && AllUndisturbed(actions, c, true) && Canonical(trace[0], c, true)
    requires m <= |actions| && c in trace[m].reg.authority
    ensures var before, after := trace[m].reg.authority, trace[|actions|].reg.authority;
            c in after && (after[c] == before[c] || Newer(after[c], before[c]))
  {
    if m < |actions| {
      var n := |actions| - 1;
      RunPrefix(trace, actions);
      PlainTimesRise(trace[..|actions|], actions[..n], c, m);
      EveryAcceptRises(trace, actions, c, true, n);
    }
  }

  /** MAIN: for quotes without a sequence number no condition on the times is left. */
  lemma PlainMirrorsConverge(trace: seq<System>, actions: seq<Action>, c: string, alias: string)
    requires IsRun(trace, actions) && alias != c
    requires AllUndisturbed(actions, c, true) && AllSoleWriter(actions, c, alias)
    requires Settled(trace[0], c, alias) && NoTaskOf(trace[|actions|], c)
    requires Agreed(trace[0], c, alias) || Accepted(trace, actions, c) > 0
    requires alias in trace[0].reg.authority ==> !Newer(trace[0].reg.authority[alias], trace[0].reg.authority[c])
    requires forall n :: 0 <= n < |actions| && AcceptedHere(trace[n], actions[n], c)
                         && Some(Stored(trace[n].reg, actions[n].i, actions[n].now)) ==
                            Lookup(trace[|actions|].reg.authority, c)
                         ==> alias in Names(actions[n].i.mirrors, c)
    ensures Agreed(trace[|actions|], c, alias)
  {
    assert Canonical(trace[0], c, true);
    if c in trace[|actions|].reg.authority {
      var last := trace[|actions|].reg.authority[c];
      forall n | 0 <= n < |actions| ensures StepFair(trace[n], actions[n], c, alias, last) {
        if AcceptedHere(trace[n], actions[n], c) {
          EveryAcceptRises(trace, actions, c, true, n);
          PlainTimesRise(trace, actions, c, n + 1);
        }
      }
      if alias in trace[0].reg.authority {
        PlainTimesRise(trace, actions, c, 0);
      }
    }
    MirrorsConverge(trace, actions, c, alias, true);
  }

  // ---------------------------------------------------------------------------------------
  // A burst of ingests: the exact condition
  // ---------------------------------------------------------------------------------------

  predicate AllBegin(burst: seq<Action>) {
    forall n :: 0 <= n < |burst| ==> burst[n].Begin?
  }

  /** The ingests begun by a list of actions, in order. */
  function Begins(actions: seq<Action>): (burst: seq<Action>)
    ensures AllBegin(burst)
  {
    if actions == [] then []
    else
      var a := actions[|actions| - 1];
      Begins(actions[..|actions| - 1]) + (if a.Begin? then [a] else [])
  }

  /** Ingests of `c` arriving one after the other. */
  ghost predicate IsBurst(burst: seq<Action>, c: string, from: real) {
    && AllBegin(burst)
    && (forall n :: 0 <= n < |burst| ==> SymbolOf(burst[n].i) == c && burst[n].now >= from)
    && (forall m, n :: 0 <= m < n < |burst| ==> burst[m].now <= burst[n].now)
    && AllUndisturbed(burst, c, false)
  }

  /** The state once the whole burst has begun and no task has gone further. */
  function Begun(s: System, burst: seq<Action>): System
    requires AllBegin(burst)
  {
    if burst == [] then s
    else
      var a := burst[|burst| - 1];
      AfterBegin(Begun(s, burst[..|burst| - 1]), a.i, a.now)
  }

  /** A run that begins exactly the ingests of the burst, in order, interleaves their emit and mirror
      blocks with them and with each other in any way, and leaves nothing in flight. */
  ghost predicate Interleaving(trace: seq<System>, actions: seq<Action>, s: System, burst: seq<Action>) {
    && IsRun(trace, actions) && trace[0] == s
    && Begins(actions) == burst
    && (forall n :: 0 <= n < |actions| ==> !actions[n].Register?)
    && trace[|actions|].tasks == []
  }

  ghost predicate ConvergesAlways(s: System, burst: seq<Action>, c: string, alias: string) {
    forall trace, actions :: Interleaving(trace, actions, s, burst) ==> Agreed(trace[|actions|], c, alias)
  }

  /** The last accepted ingest lists the alias, and neither the alias entry nor an accepted quote that
      lists the alias is more than the tolerance newer than the last accepted quote. */
  ghost predicate LastIsNotOutdated(s: System, burst: seq<Action>, c: string, alias: string)
    requires AllBegin(burst)
  {
    var tasks := Begun(s, burst).tasks;
    if tasks == [] then Agreed(s, c, alias)
    else
      var last := tasks[|tasks| - 1];
      && Heads(last, c, alias)
      && (forall k :: 0 <= k < |tasks| && Heads(tasks[k], c, alias) ==> !Newer(tasks[k].enriched, last.enriched))
      && (alias in s.reg.authority ==> !Newer(s.reg.authority[alias], last.enriched))
  }

  // --- What every interleaving of the burst has in common ---

  /** What an ingest of `c` reads. */
  ghost predicate SameCore(s: System, u: System, c: string) {
    && Lookup(s.reg.authority, c) == Lookup(u.reg.authority, c)
    && Lookup(s.reg.sequences, c) == Lookup(u.reg.sequences, c)
    && s.reg.priorities == u.reg.priorities
  }

  lemma CoreBegin(s: System, u: System, a: Action, c: string)
    requires SameCore(s, u, c) && a.Begin? && SymbolOf(a.i) == c
    ensures Accepts(s.reg, a.i, a.now) == Accepts(u.reg, a.i, a.now)
    ensures TaskFor(s.reg, a.i, a.now) == TaskFor(u.reg, a.i, a.now)
    ensures SameCore(AfterBegin(s, a.i, a.now), AfterBegin(u, a.i, a.now), c)
  {
  }

  lemma CoreOther(s: System, a: Action, c: string)
    requires Canonical(s, c, false) && CanAct(s, a) && (a.Emit? || a.Mirror?)
    ensures SameCore(s, Act(s, a), c)
  {
    EntryStep(s, a, c, false);
    if a.Mirror? {
      MirrorsOnlyAuthority(s.reg, s.tasks[a.k], s.tasks[a.k].mirrors, a.now);
    }
  }

  /** One more action adds its ingest, if it begins one, to what has begun. */
  lemma BegunLast(s: System, actions: seq<Action>)
    requires actions != []
    ensures var a, u := actions[|actions| - 1], Begun(s, Begins(actions[..|actions| - 1]));
            Begun(s, Begins(actions)) == if a.Begin? then AfterBegin(u, a.i, a.now) else u
  {
    var before := Begins(actions[..|actions| - 1]);
    if actions[|actions| - 1].Begin? {
      assert Begins(actions)[..|before|] == before;
    } else {
      assert Begins(actions) == before;
    }
  }

  ghost predicate OnlyBurst(actions: seq<Action>, c: string) {
    forall n :: 0 <= n < |actions| ==>
      && !actions[n].Register? && Undisturbed(actions[n], c, false)
      && (actions[n].Begin? ==> SymbolOf(actions[n].i) == c)
  }

  lemma {:induction false} CoreOverRun(trace: seq<System>, actions: seq<Action>, c: string)
    requires IsRun(trace, actions) && OnlyBurst(actions, c) && Canonical(trace[0], c, false)
    ensures SameCore(trace[|actions|], Begun(trace[0], Begins(actions)), c)
  {
    if actions != [] {
      var n := |actions| - 1;
      RunPrefix(trace, actions);
      CoreOverRun(trace[..|actions|], actions[..n], c);
      CanonicalOverRun(trace, actions, c, false);
      assert Canonical(trace[n], c, false);
      BegunLast(trace[0], actions);
      if actions[n].Begin? {
        CoreBegin(trace[n], Begun(trace[0], Begins(actions[..n])), actions[n], c);
      } else {
        CoreOther(trace[n], actions[n], c);
      }
    }
  }

  /** Every ingest accepted in some interleaving carries the task it gets when the whole burst begins
      at once. */
  lemma {:induction false} AcceptedIsBegun(trace: seq<System>, actions: seq<Action>, c: string, m: nat)
    requires IsRun(trace, actions) && OnlyBurst(actions, c) && Canonical(trace[0], c, false)
    requires m < |actions| && AcceptedHere(trace[m], actions[m], c)
    ensures TaskFor(trace[m].reg, actions[m].i, actions[m].now) in Begun(trace[0], Begins(actions)).tasks
  {
    if m < |actions| - 1 {
      RunPrefix(trace, actions);
      AcceptedIsBegun(trace[..|actions|], actions[..|actions| - 1], c, m);
      BegunGrows(trace[0], actions, TaskFor(trace[m].reg, actions[m].i, actions[m].now));
    } else {
      LastIsBegun(trace, actions, c);
    }
  }

  lemma BegunGrows(s: System, actions: seq<Action>, t: Task)
    requires actions != [] && t in Begun(s, Begins(actions[..|actions| - 1])).tasks
    ensures t in Begun(s, Begins(actions)).tasks
  {
    var a := actions[|actions| - 1];
    BegunLast(s, actions);
    if a.Begin? {
      BegunKeeps(Begun(s, Begins(actions[..|actions| - 1])), a.i, a.now, t);
    }
  }

  lemma LastIsBegun(trace: seq<System>, actions: seq<Action>, c: string)
    requires IsRun(trace, actions) && OnlyBurst(actions, c) && Canonical(trace[0], c, false)
    requires actions != [] && AcceptedHere(trace[|actions| - 1], actions[|actions| - 1], c)
    ensures var a := actions[|actions| - 1];
            TaskFor(trace[|actions| - 1].reg, a.i, a.now) in Begun(trace[0], Begins(actions)).tasks
  {
    var n := |actions| - 1;
    var a, u := actions[n], Begun(trace[0], Begins(actions[..n]));
    RunPrefix(trace, actions);
    CoreOverRun(trace[..|actions|], actions[..n], c);
    CoreBegin(trace[n], u, a, c);
    BegunLast(trace[0], actions);
    BegunAdds(u, a.i, a.now);
  }

  lemma BegunKeeps(u: System, i: Ingest, now: real, t: Task)
    requires t in u.tasks
    ensures t in AfterBegin(u, i, now).tasks
  {
  }

  lemma BegunAdds(u: System, i: Ingest, now: real)
    requires Accepts(u.reg, i, now)
    ensures TaskFor(u.reg, i, now) in AfterBegin(u, i, now).tasks
  {
  }

  lemma {:induction false} BeginsHasAll(actions: seq<Action>, n: nat)
    requires n < |actions| && actions[n].Begin?
    ensures actions[n] in Begins(actions)
  {
    if n < |actions| - 1 {
      BeginsHasAll(actions[..|actions| - 1], n);
    }
  }

  // --- The state once the whole burst has begun ---

  ghost predicate BegunFits(s: System, u: System, c: string) {
    && EntryFits(u.reg, c)
    && NextSequence(u.reg, c) == NextSequence(s.reg, c) + |u.tasks|
    && (forall k :: 0 <= k < |u.tasks| ==>
          u.tasks[k].sym == c && u.tasks[k].enriched.sequence == NextSequence(s.reg, c) + k)
    && Lookup(u.reg.authority, c) ==
       (if u.tasks == [] then Lookup(s.reg.authority, c) else Some(u.tasks[|u.tasks| - 1].enriched))
  }

  lemma {:induction false} BegunTasks(s: System, burst: seq<Action>, c: string, alias: string)
    requires s.tasks == [] && EntryFits(s.reg, c) && alias != c && IsBurst(burst, c, s.clock)
    ensures BegunFits(s, Begun(s, burst), c)
    ensures Lookup(Begun(s, burst).reg.authority, alias) == Lookup(s.reg.authority, alias)
  {
    if burst != [] {
      var n := |burst| - 1;
      BegunTasks(s, burst[..n], c, alias);
      assert Undisturbed(burst[n], c, false);
      BegunStep(s, Begun(s, burst[..n]), burst[n].i, burst[n].now, c, alias);
    }
  }

  lemma BegunStep(s: System, u: System, i: Ingest, now: real, c: string, alias: string)
    requires BegunFits(s, u, c) && SymbolOf(i) == c && Timed(i.quote) && Reparses(i.quote) && alias != c
    ensures BegunFits(s, AfterBegin(u, i, now), c)
    ensures Lookup(AfterBegin(u, i, now).reg.authority, alias) == Lookup(u.reg.authority, alias)
  {
    if Accepts(u.reg, i, now) {
      AcceptedIsNewer(u.reg, i, now, c);
      OneMoreFits(s, u, AfterBegin(u, i, now), TaskFor(u.reg, i, now), c);
    }
  }

  lemma OneMoreFits(s: System, u: System, u': System, t: Task, c: string)
    requires BegunFits(s, u, c) && EntryFits(u'.reg, c) && u'.tasks == u.tasks + [t]
    requires t.sym == c && t.enriched.sequence == NextSequence(u.reg, c)
    requires NextSequence(u'.reg, c) == NextSequence(u.reg, c) + 1
    requires Lookup(u'.reg.authority, c) == Some(t.enriched)
    ensures BegunFits(s, u', c)
  {
  }

  function BegunTrace(s: System, burst: seq<Action>): seq<System>
    requires AllBegin(burst)
  {
    seq(|burst| + 1, n requires 0 <= n <= |burst| => Begun(s, burst[..n]))
  }

  lemma BegunNext(s: System, burst: seq<Action>, n: nat)
    requires AllBegin(burst) && n < |burst|
    ensures Begun(s, burst[..n + 1]) == AfterBegin(Begun(s, burst[..n]), burst[n].i, burst[n].now)
  {
    assert burst[..n + 1][..n] == burst[..n];
  }

  lemma BegunInTime(s: System, burst: seq<Action>, c: string, n: nat)
    requires IsBurst(burst, c, s.clock) && n < |burst|
    ensures Begun(s, burst[..n]).clock <= burst[n].now
  {
    if n > 0 {
      BegunNext(s, burst, n - 1);
      assert burst[n - 1].now <= burst[n].now;
    }
  }

  lemma BegunIsRun(s: System, burst: seq<Action>, c: string)
    requires IsBurst(burst, c, s.clock)
    ensures IsRun(BegunTrace(s, burst), burst)
    ensures BegunTrace(s, burst)[0] == s && BegunTrace(s, burst)[|burst|] == Begun(s, burst)
  {
    var trace := BegunTrace(s, burst);
    assert burst[..0] == [] && burst[..|burst|] == burst;
    forall n | 0 <= n < |burst| ensures CanAct(trace[n], burst[n]) && trace[n + 1] == Act(trace[n], burst[n]) {
      BegunNext(s, burst, n);
      BegunInTime(s, burst, c, n);
    }
  }

  /** MAIN, one half: if the last accepted quote is not outdated every interleaving converges. */
  lemma BurstConverges(trace: seq<System>, actions: seq<Action>, s: System, burst: seq<Action>, c: string,
                       alias: string)
    requires s.tasks == [] && EntryFits(s.reg, c) && AliasBehind(s, c, alias) && alias != c
    requires IsBurst(burst, c, s.clock) && LastIsNotOutdated(s, burst, c, alias)
    requires Interleaving(trace, actions, s, burst)
    ensures Agreed(trace[|actions|], c, alias)
  {
    BurstActions(actions, c, s.clock);
    assert Canonical(s, c, false);
    CoreOverRun(trace, actions, c);
    BegunTasks(s, burst, c, alias);
    CounterCountsAccepts(trace, actions, c);
    BurstIsFair(trace, actions, c, alias);
    MirrorsConverge(trace, actions, c, alias, false);
  }

  lemma BurstActions(actions: seq<Action>, c: string, from: real)
    requires IsBurst(Begins(actions), c, from)
    requires forall n :: 0 <= n < |actions| ==> !actions[n].Register?
    ensures OnlyBurst(actions, c)
  {
    forall n | 0 <= n < |actions| && actions[n].Begin?
      ensures Undisturbed(actions[n], c, false) && SymbolOf(actions[n].i) == c
    {
      BeginsHasAll(actions, n);
      BurstMember(Begins(actions), c, from, actions[n]);
    }
  }

  lemma BurstMember(burst: seq<Action>, c: string, from: real, a: Action)
    requires IsBurst(burst, c, from) && a in burst
    ensures a.Begin? && Undisturbed(a, c, false) && SymbolOf(a.i) == c
  {
    var m :| 0 <= m < |burst| && burst[m] == a;
    assert Undisturbed(burst[m], c, false);
  }

  lemma BurstIsFair(trace: seq<System>, actions: seq<Action>, c: string, alias: string)
    requires IsRun(trace, actions) && OnlyBurst(actions, c) && Canonical(trace[0], c, false)
    requires BegunFits(trace[0], Begun(trace[0], Begins(actions)), c)
    requires LastIsNotOutdated(trace[0], Begins(actions), c, alias)
    ensures var u := Begun(trace[0], Begins(actions));
            c in u.reg.authority ==> AllFair(trace, actions, c, alias, u.reg.authority[c])
  {
    var u := Begun(trace[0], Begins(actions));
    if c in u.reg.authority {
      forall n | 0 <= n < |actions| && AcceptedHere(trace[n], actions[n], c)
        ensures StepFair(trace[n], actions[n], c, alias, u.reg.authority[c])
      {
        AcceptedIsBegun(trace, actions, c, n);
        BegunIsFair(trace[0], u, TaskFor(trace[n].reg, actions[n].i, actions[n].now), c, alias);
      }
    }
  }

  lemma BegunIsFair(s: System, u: System, t: Task, c: string, alias: string)
    requires BegunFits(s, u, c) && t in u.tasks
    requires var last := u.tasks[|u.tasks| - 1];
             && Heads(last, c, alias)
             && forall k :: 0 <= k < |u.tasks| && Heads(u.tasks[k], c, alias) ==> !Newer(u.tasks[k].enriched, last.enriched)
    ensures c in u.reg.authority
    ensures if alias in Names(t.mirrors, c) then !Newer(t.enriched, u.reg.authority[c])
            else t.enriched != u.reg.authority[c]
  {
    var k :| 0 <= k < |u.tasks| && u.tasks[k] == t;
    assert k < |u.tasks| - 1 || t == u.tasks[|u.tasks| - 1];
  }

  // --- Running tasks to their end, in an order of our choice ---

  /** A run from `s` to `end` made of emit and mirror blocks. */
  ghost predicate Finishes(trace: seq<System>, actions: seq<Action>, s: System, end: System) {
    && IsRun(trace, actions) && trace[0] == s && trace[|actions|] == end
    && forall n :: 0 <= n < |actions| ==> actions[n].Emit? || actions[n].Mirror?
  }

  lemma Chain(trace: seq<System>, actions: seq<Action>, trace': seq<System>, actions': seq<Action>)
    requires IsRun(trace, actions) && IsRun(trace', actions') && trace[|actions|] == trace'[0]
    ensures IsRun(trace + trace'[1..], actions + actions')
    ensures (trace + trace'[1..])[0] == trace[0]
    ensures (trace + trace'[1..])[|actions + actions'|] == trace'[|actions'|]
  {
    var whole, all := trace + trace'[1..], actions + actions';
    forall n | 0 <= n < |all| ensures CanAct(whole[n], all[n]) && whole[n + 1] == Act(whole[n], all[n]) {
      if n < |actions| {
        assert whole[n] == trace[n] && whole[n + 1] == trace[n + 1] && all[n] == actions[n];
      } else {
        var m := n - |actions|;
        assert whole[n] == trace'[m] && whole[n + 1] == trace'[m + 1] && all[n] == actions'[m];
      }
    }
  }

  /** The emit block of task `k`, if it has one to come. */
  function Emitting(s: System, k: nat): System
    requires k < |s.tasks|
  {
    if s.tasks[k].emit then Act(s, Emit(k, 0, s.clock)) else s
  }

  function Completed(s: System, k: nat): System
    requires k < |s.tasks|
  {
    Act(Emitting(s, k), Mirror(k, s.clock))
  }

  /** Completing a task removes it, spares the canonical entry, and merges its quote into the alias if it
      heads there. */
  lemma CompletedFacts(s: System, k: nat, c: string, alias: string)
    requires Canonical(s, c, false) && k < |s.tasks| && s.tasks[k].sym == c
    ensures var t, s' := s.tasks[k].(emit := false), Completed(s, k);
            && Canonical(s', c, false) && OneDone(s, s', k)
            && Lookup(s'.reg.authority, c) == Lookup(s.reg.authority, c)
            && Lookup(s'.reg.authority, alias) ==
               (if Heads(t, c, alias) then Merged(Lookup(s.reg.authority, alias), t.enriched.(symbol := alias), t, s.clock)
                else Lookup(s.reg.authority, alias))
  {
    var mid := Emitting(s, k);
    if s.tasks[k].emit {
      CanonicalStep(s, Emit(k, 0, s.clock), c, false);
    }
    CanonicalStep(mid, Mirror(k, s.clock), c, false);
    EntryStep(mid, Mirror(k, s.clock), c, false);
    if Heads(s.tasks[k], c, alias) {
      MirrorMerges(mid, k, s.clock, c, alias, false);
    } else {
      MirrorsElsewhere(mid.reg, mid.tasks[k], mid.tasks[k].mirrors, s.clock, alias);
    }
  }

  lemma CompletedIsRun(s: System, k: nat) returns (trace: seq<System>, actions: seq<Action>)
    requires k < |s.tasks|
    ensures Finishes(trace, actions, s, Completed(s, k))
  {
    if s.tasks[k].emit {
      trace, actions := [s, Emitting(s, k), Completed(s, k)], [Emit(k, 0, s.clock), Mirror(k, s.clock)];
    } else {
      trace, actions := [s, Completed(s, k)], [Mirror(k, s.clock)];
    }
  }

  /** Complete task `k`, then go on as given. */
  lemma Onward(s: System, k: nat, rest: seq<System>, more: seq<Action>, end: System)
    returns (trace: seq<System>, actions: seq<Action>)
    requires k < |s.tasks| && Finishes(rest, more, Completed(s, k), end)
    ensures Finishes(trace, actions, s, end)
  {
    var first, todo := CompletedIsRun(s, k);
    Chain(first, todo, rest, more);
    trace, actions := first + rest[1..], todo + more;
  }

  ghost predicate Pending(s: System, c: string) {
    Canonical(s, c, false) && forall k :: 0 <= k < |s.tasks| ==> s.tasks[k].sym == c
  }

  lemma CompletedPending(s: System, k: nat, c: string, alias: string)
    requires Pending(s, c) && k < |s.tasks|
    ensures Pending(Completed(s, k), c)
    ensures forall j :: 0 <= j < |s.tasks| - 1 ==> Completed(s, k).tasks[j] == s.tasks[if j < k then j else j + 1]
  {
    CompletedFacts(s, k, c, alias);
  }

  /** The alias does not hold `last`. */
  ghost predicate Off(s: System, alias: string, last: Quote) {
    Lookup(s.reg.authority, alias) != Some(last.(symbol := alias))
  }

  /** A task that cannot put `last` into the alias. */
  ghost predicate Aside(t: Task, c: string, alias: string, last: Quote) {
    Heads(t, c, alias) ==> t.enriched.(symbol := alias) != last.(symbol := alias)
  }

  lemma StaysOff(s: System, k: nat, c: string, alias: string, last: Quote)
    requires Pending(s, c) && k < |s.tasks| && Off(s, alias, last) && Aside(s.tasks[k], c, alias, last)
    ensures Off(Completed(s, k), alias, last)
  {
    CompletedFacts(s, k, c, alias);
  }

  /** An alias that does not hold `last` can be kept so while the other tasks complete. */
  lemma FinishAside(s: System, c: string, alias: string, last: Quote)
    returns (trace: seq<System>, actions: seq<Action>, end: System)
    requires Pending(s, c) && Off(s, alias, last)
    requires forall k :: 0 <= k < |s.tasks| ==> Aside(s.tasks[k], c, alias, last)
    ensures Finishes(trace, actions, s, end) && end.tasks == [] && Off(end, alias, last)
    ensures Lookup(end.reg.authority, c) == Lookup(s.reg.authority, c)
    decreases |s.tasks|
  {
    if s.tasks == [] {
      trace, actions, end := [s], [], s;
    } else {
      CompletedFacts(s, 0, c, alias);
      CompletedPending(s, 0, c, alias);
      StaysOff(s, 0, c, alias, last);
      var rest, more, e := FinishAside(Completed(s, 0), c, alias, last);
      end := e;
      trace, actions := Onward(s, 0, rest, more, end);
    }
  }

  /** A task with a clearly newer quote than `last`, completed after all others, takes the alias off
      `last`. */
  lemma FinishWithNewer(s: System, j: nat, c: string, alias: string, last: Quote)
    returns (trace: seq<System>, actions: seq<Action>, end: System)
    requires Pending(s, c) && j < |s.tasks| && Heads(s.tasks[j], c, alias) && Newer(s.tasks[j].enriched, last)
    ensures Finishes(trace, actions, s, end) && end.tasks == [] && Off(end, alias, last)
    ensures Lookup(end.reg.authority, c) == Lookup(s.reg.authority, c)
    decreases |s.tasks|
  {
    var k := if |s.tasks| == 1 then 0 else if j == 0 then 1 else 0;
    CompletedFacts(s, k, c, alias);
    CompletedPending(s, k, c, alias);
    var rest, more;
    if |s.tasks| == 1 {
      NewerTakesOver(s, c, alias, last);
      rest, more, end := [Completed(s, 0)], [], Completed(s, 0);
    } else {
      rest, more, end := FinishWithNewer(Completed(s, k), if j == 0 then 0 else j - 1, c, alias, last);
    }
    trace, actions := Onward(s, k, rest, more, end);
  }

  lemma NewerTakesOver(s: System, c: string, alias: string, last: Quote)
    requires Pending(s, c) && s.tasks != []
    requires Heads(s.tasks[0], c, alias) && Newer(s.tasks[0].enriched, last)
    ensures Off(Completed(s, 0), alias, last)
  {
    CompletedFacts(s, 0, c, alias);
    var t, q := s.tasks[0], s.tasks[0].enriched.(symbol := alias);
    assert Newer(q, last.(symbol := alias));
    NewerDecides(q, last.(symbol := alias), t.source, t.open, s.clock);
  }

  /** An alias entry clearly newer than the last quote rejects it. */
  lemma NewerEntryHolds(s: System, k: nat, c: string, alias: string, last: Quote)
    requires Pending(s, c) && k < |s.tasks| && s.tasks[k].enriched == last
    requires alias in s.reg.authority && Newer(s.reg.authority[alias], last)
    ensures Off(Completed(s, k), alias, last)
  {
    CompletedFacts(s, k, c, alias);
    var t, e := s.tasks[k], s.reg.authority[alias];
    assert Newer(e, last.(symbol := alias));
    NewerDecides(e, last.(symbol := alias), t.source, t.open, s.clock);
  }

  /** If the last accepted quote is outdated, the tasks of the burst can complete in an order that
      leaves the alias on another quote. */
  lemma OutdatedDiverges(s: System, u: System, c: string, alias: string)
    returns (trace: seq<System>, actions: seq<Action>, end: System)
    requires Pending(u, c) && BegunFits(s, u, c) && AliasBehind(s, c, alias) && u.tasks != []
    requires Lookup(u.reg.authority, alias) == Lookup(s.reg.authority, alias) && EntryFits(s.reg, c)
    requires var last := u.tasks[|u.tasks| - 1];
             || !Heads(last, c, alias)
             || (exists k :: 0 <= k < |u.tasks| && Heads(u.tasks[k], c, alias) && Newer(u.tasks[k].enriched, last.enriched))
             || (alias in s.reg.authority && Newer(s.reg.authority[alias], last.enriched))
    ensures Finishes(trace, actions, u, end) && end.tasks == [] && !Agreed(end, c, alias)
  {
    var n := |u.tasks| - 1;
    var last := u.tasks[n].enriched;
    if k :| 0 <= k < |u.tasks| && Heads(u.tasks[k], c, alias) && Newer(u.tasks[k].enriched, last) {
      trace, actions, end := FinishWithNewer(u, k, c, alias, last);
    } else if !Heads(u.tasks[n], c, alias) {
      trace, actions, end := FinishAside(u, c, alias, last);
    } else {
      CompletedFacts(u, n, c, alias);
      CompletedPending(u, n, c, alias);
      NewerEntryHolds(u, n, c, alias, last);
      var rest, more, e := FinishAside(Completed(u, n), c, alias, last);
      end := e;
      trace, actions := Onward(u, n, rest, more, end);
    }
  }

  // --- The exact condition ---

  lemma {:induction false} BeginsAppend(actions: seq<Action>, more: seq<Action>)
    requires forall n :: 0 <= n < |more| ==> !more[n].Begin?
    ensures Begins(actions + more) == Begins(actions)
  {
    if more == [] {
      assert actions + more == actions;
    } else {
      var m := |more| - 1;
      assert (actions + more)[..|actions + more| - 1] == actions + more[..m];
      BeginsAppend(actions, more[..m]);
    }
  }

  lemma {:induction false} BeginsOfBurst(burst: seq<Action>)
    requires AllBegin(burst)
    ensures Begins(burst) == burst
  {
    if burst != [] {
      BeginsOfBurst(burst[..|burst| - 1]);
    }
  }

  /** MAIN, other half: if the last accepted quote is outdated there is an interleaving, with nothing
      left in flight, after which the alias and the canonical entry disagree. */
  lemma BurstDiverges(s: System, burst: seq<Action>, c: string, alias: string)
    returns (trace: seq<System>, actions: seq<Action>)
    requires s.tasks == [] && EntryFits(s.reg, c) && AliasBehind(s, c, alias) && alias != c
    requires IsBurst(burst, c, s.clock) && !LastIsNotOutdated(s, burst, c, alias)
    ensures Interleaving(trace, actions, s, burst) && !Agreed(trace[|actions|], c, alias)
  {
    var u := Begun(s, burst);
    BegunTasks(s, burst, c, alias);
    BegunPending(s, burst, c, alias);
    var rest, more, end;
    if u.tasks == [] {
      rest, more, end := [u], [], u;
    } else {
      rest, more, end := OutdatedDiverges(s, u, c, alias);
    }
    trace, actions := BurstThen(s, burst, c, rest, more, end);
  }

  /** Begin the whole burst, then go on as given. */
  lemma BurstThen(s: System, burst: seq<Action>, c: string, rest: seq<System>, more: seq<Action>, end: System)
    returns (trace: seq<System>, actions: seq<Action>)
    requires IsBurst(burst, c, s.clock) && Finishes(rest, more, Begun(s, burst), end) && end.tasks == []
    ensures Interleaving(trace, actions, s, burst) && trace[|actions|] == end
  {
    BegunIsRun(s, burst, c);
    Chain(BegunTrace(s, burst), burst, rest, more);
    BeginsOfBurst(burst);
    BeginsAppend(burst, more);
    trace, actions := BegunTrace(s, burst) + rest[1..], burst + more;
  }

  lemma BegunPending(s: System, burst: seq<Action>, c: string, alias: string)
    requires s.tasks == [] && EntryFits(s.reg, c) && alias != c && IsBurst(burst, c, s.clock)
    ensures Pending(Begun(s, burst), c)
  {
    BegunTasks(s, burst, c, alias);
    BegunIsRun(s, burst, c);
    assert Canonical(s, c, false);
    CanonicalOverRun(BegunTrace(s, burst), burst, c, false);
    assert Canonical(BegunTrace(s, burst)[|burst|], c, false);
  }

  /** MAIN: a burst of ingests of `c` converges under every interleaving of its blocks if and only if
      the last accepted ingest lists the alias and no accepted quote that lists the alias, nor the
      alias entry at the start, is more than the tolerance newer than the last accepted quote. */
  lemma BurstConvergesIff(s: System, burst: seq<Action>, c: string, alias: string)
    requires s.tasks == [] && EntryFits(s.reg, c) && AliasBehind(s, c, alias) && alias != c
    requires IsBurst(burst, c, s.clock)
    ensures ConvergesAlways(s, burst, c, alias) <==> LastIsNotOutdated(s, burst, c, alias)
  {
    if LastIsNotOutdated(s, burst, c, alias) {
      forall trace, actions | Interleaving(trace, actions, s, burst) ensures Agreed(trace[|actions|], c, alias) {
        BurstConverges(trace, actions, s, burst, c, alias);
      }
    } else {
      var trace, actions := BurstDiverges(s, burst, c, alias);
      assert Interleaving(trace, actions, s, burst);
    }
  }

  // --- A burst that diverges ---

  /** An ingest of a feed that numbers its quotes, at the given exchange time. */
  function Numbered(at: real): Ingest {
    Ingest("TCS.NS", Quote("TCS.NS", Raw(Some(at), None), Absent, Absent, 99, "live_ws", Some(1.0), None, None,
                           Live, Warm, 0.0, 0),
           "live_ws", true, ["TCS"], true, true)
  }

  const FEED := [
    Begin(Numbered(1700000000.0), 1700000001.0),
    Begin(Numbered(1699999999.9994), 1700000001.0),
    Begin(Numbered(1699999999.9988), 1700000001.0)]

  const EMPTY := System(Registry(map[], map[], map[], map[], Priorities(map[], map[])), [], [], 0.0)

  lemma NumberedFits(at: real, now: real)
    requires SECONDS_FROM < at <= MILLIS_FROM
    ensures SymbolOf(Numbered(at)) == "TCS.NS" && Undisturbed(Begin(Numbered(at), now), "TCS.NS", false)
    ensures Names(["TCS"], "TCS.NS") == {"TCS"}
  {
    assert Normalize("TCS") == "TCS" && Normalize("TCS.NS") == "TCS.NS";
    assert ["TCS"][0] == "TCS";
  }

  lemma FeedIsBurst()
    ensures IsBurst(FEED, "TCS.NS", EMPTY.clock)
  {
    NumberedFits(1700000000.0, 1700000001.0);
    NumberedFits(1699999999.9994, 1700000001.0);
    NumberedFits(1699999999.9988, 1700000001.0);
  }

  /** A numbered quote within the tolerance of the stored one is accepted, and stored with its time. */
  lemma NumberedAccepted(u: System, at: real, now: real)
    requires SECONDS_FROM < at <= MILLIS_FROM
    requires "TCS.NS" in u.reg.authority ==>
               var cur := u.reg.authority["TCS.NS"];
               Timed(cur) && -TOLERANCE <= at - ParseTs(cur).value <= TOLERANCE && cur.sequence < 99
    ensures var t, u' := TaskFor(u.reg, Numbered(at), now), AfterBegin(u, Numbered(at), now);
            && t.sym == "TCS.NS" && t.mirrors == ["TCS"]
            && ParseTs(t.enriched) == Some(at) && t.enriched.sequence == NextSequence(u.reg, "TCS.NS")
            && u'.tasks == u.tasks + [t]
            && Lookup(u'.reg.authority, "TCS.NS") == Some(t.enriched)
            && NextSequence(u'.reg, "TCS.NS") == NextSequence(u.reg, "TCS.NS") + 1
  {
    var i := Numbered(at);
    assert SymbolOf(i) == "TCS.NS";
    assert ParseTs(Candidate(i)) == Some(at) && Candidate(i).sequence == 99;
    EnrichmentKeepsTimestamp(u.reg.priorities, "TCS.NS", Candidate(i), i.source, NextSequence(u.reg, "TCS.NS"),
                             i.open, now, now);
  }

  /** Three numbered quotes, each accepted within the tolerance of the one before and 1.2 ms apart in
      all, from an empty registry: in some interleaving the alias is left behind. */
  lemma NumberedFeedDiverges() returns (trace: seq<System>, actions: seq<Action>)
    ensures Interleaving(trace, actions, EMPTY, FEED)
    ensures !Agreed(trace[|actions|], "TCS.NS", "TCS")
  {
    FeedIsBurst();
    FeedTasks();
    NumberedFits(1700000000.0, 1700000001.0);
    var tasks := Begun(EMPTY, FEED).tasks;
    assert Heads(tasks[0], "TCS.NS", "TCS") && Newer(tasks[0].enriched, tasks[2].enriched);
    trace, actions := BurstDiverges(EMPTY, FEED, "TCS.NS", "TCS");
  }

  lemma FeedTasks()
    ensures var tasks := Begun(EMPTY, FEED).tasks;
            && |tasks| == 3 && tasks[0].sym == "TCS.NS" && tasks[0].mirrors == ["TCS"]
            && ParseTs(tasks[0].enriched) == Some(1700000000.0)
            && ParseTs(tasks[2].enriched) == Some(1699999999.9988)
  {
    var now := 1700000001.0;
    var u1 := AfterBegin(EMPTY, Numbered(1700000000.0), now);
    var u2 := AfterBegin(u1, Numbered(1699999999.9994), now);
    NumberedAccepted(EMPTY, 1700000000.0, now);
    NumberedAccepted(u1, 1699999999.9994, now);
    NumberedAccepted(u2, 1699999999.9988, now);
    FeedBegun();
  }

  lemma FeedBegun()
    ensures var u1 := AfterBegin(EMPTY, Numbered(1700000000.0), 1700000001.0);
            var u2 := AfterBegin(u1, Numbered(1699999999.9994), 1700000001.0);
            Begun(EMPTY, FEED) == AfterBegin(u2, Numbered(1699999999.9988), 1700000001.0)
  {
    BegunNext(EMPTY, FEED, 0);
    BegunNext(EMPTY, FEED, 1);
    BegunNext(EMPTY, FEED, 2);
    assert FEED[..3] == FEED && FEED[..0] == [];
  }
}
