/** The in-process event bus of backend/core/event_bus.py: emitters, subscriptions and the
dispatcher coroutine.  Handlers may await, so other code can run between two handler calls of
one event; the dispatcher iterates over the live handler list. */
module EventBus {
  datatype EventType = PriceUpdated | Other(name: string)

  /** `cold` when the quote in the event's data carries the "cold" priority tier. */
  datatype Event = Event(eventType: EventType, id: nat, cold: bool)

  datatype Stats = Stats(emitted: nat, handled: nat, errors: nat)

  const SHED_DEPTH := 300

  predicate Sheds(depth: nat, e: Event) {
    depth >= SHED_DEPTH && e.eventType.PriceUpdated? && e.cold
  }

  type Handlers = map<EventType, seq<string>>

  function HandlersOf(hs: Handlers, t: EventType): seq<string> {
    if t in hs then hs[t] else []
  }

  function FirstIndex(xs: seq<string>, x: string): (i: nat)
    ensures i <= |xs| && (i < |xs| ==> xs[i] == x) && x !in xs[..i]
    ensures i == |xs| <==> x !in xs
  {
    if xs == [] || xs[0] == x then 0
    else
      assert xs == [xs[0]] + xs[1..];
      1 + FirstIndex(xs[1..], x)
  }

  /** `list.remove`: drops the first occurrence. */
  function Without(xs: seq<string>, x: string): seq<string> {
    var i := FirstIndex(xs, x);
    if i < |xs| then xs[..i] + xs[i + 1..] else xs
  }

  /** A handler call: which event, which position in the list, which handler. */
  datatype Call = Call(event: Event, slot: nat, handler: string)

  class Bus {
    var handlers: Handlers
    var queue: seq<Event>
    var stats: Stats

    constructor ()
      ensures handlers == map[] && queue == [] && stats == Stats(0, 0, 0)
    {
      handlers, queue, stats := map[], [], Stats(0, 0, 0);
    }

    method Subscribe(t: EventType, handler: string)
      modifies this`handlers
      ensures handlers == old(handlers)[t := HandlersOf(old(handlers), t) + [handler]]
    {
      handlers := handlers[t := HandlersOf(handlers, t) + [handler]];
    }

    method Unsubscribe(t: EventType, handler: string)
      modifies this`handlers
      ensures forall u :: HandlersOf(handlers, u) ==
                          if u == t then Without(HandlersOf(old(handlers), t), handler)
                          else HandlersOf(old(handlers), u)
    {
      var hs := HandlersOf(handlers, t);
      if handler in hs {
        handlers := handlers[t := Without(hs, handler)];
      }
    }

    method Emit(e: Event)
      modifies this`queue, this`stats
      ensures if old(|queue|) >= 300 && e.eventType == PriceUpdated && e.cold
              then queue == old(queue) && stats == old(stats)
              else queue == old(queue) + [e] && stats == old(stats).(emitted := old(stats).emitted + 1)
    {
      var depth := |queue|;
      if depth >= SHED_DEPTH && e.eventType.PriceUpdated? && e.cold {
        return;
      }
      queue := queue + [e];
      stats := stats.(emitted := stats.emitted + 1);
    }

    method EmitNowait(e: Event)
      modifies this`queue, this`stats
      ensures queue == old(queue) + [e] && stats == old(stats).(emitted := old(stats).emitted + 1)
    {
      queue := queue + [e];
      stats := stats.(emitted := stats.emitted + 1);
    }

    /** One turn of the dispatcher when no handler yields: `succeeds` says which calls raise. */
    method DispatchNext(succeeds: (Event, string) -> bool) returns (calls: seq<Call>)
      requires queue != []
      modifies this`queue, this`stats
      ensures queue == old(queue)[1..]
      ensures calls == TurnCalls(old(queue)[0], HandlersOf(handlers, old(queue)[0].eventType))
      ensures stats.emitted == old(stats).emitted
      ensures stats.handled == old(stats).handled + Successes(calls, succeeds)
      ensures stats.handled + stats.errors == old(stats).handled + old(stats).errors + |calls|
    {
      var e := queue[0];
      queue := queue[1..];
      calls := [];
      var hs := HandlersOf(handlers, e.eventType);
      for i := 0 to |hs|
        invariant queue == old(queue)[1..] && stats.emitted == old(stats).emitted
        invariant calls == TurnCalls(e, hs[..i])
        invariant stats.handled == old(stats).handled + Successes(calls, succeeds)
        invariant stats.handled + stats.errors == old(stats).handled + old(stats).errors + i
      {
        TurnCallsNext(e, hs, i);
        assert (calls + [Call(e, i, hs[i])])[..i] == calls;
        calls := calls + [Call(e, i, hs[i])];
        if succeeds(e, hs[i]) {
          stats := stats.(handled := stats.handled + 1);
        } else {
          stats := stats.(errors := stats.errors + 1);
        }
      }
      assert hs[..|hs|] == hs;
    }
  }

  /** One call of each handler, in list order. */
  function TurnCalls(e: Event, hs: seq<string>): (calls: seq<Call>)
    ensures |calls| == |hs| && forall i :: 0 <= i < |hs| ==> calls[i] == Call(e, i, hs[i])
  {
    seq(|hs|, i requires 0 <= i < |hs| => Call(e, i, hs[i]))
  }

  lemma TurnCallsNext(e: Event, hs: seq<string>, i: nat)
    requires i < |hs|
    ensures TurnCalls(e, hs[..i + 1]) == TurnCalls(e, hs[..i]) + [Call(e, i, hs[i])]
  {
  }

  function Successes(calls: seq<Call>, succeeds: (Event, string) -> bool): nat {
    if calls == [] then 0
    else
      var c := calls[|calls| - 1];
      Successes(calls[..|calls| - 1], succeeds) + (if succeeds(c.event, c.handler) then 1 else 0)
  }

  lemma {:induction false} SuccessesCount(calls: seq<Call>, succeeds: (Event, string) -> bool)
    ensures Successes(calls, succeeds) == |set i | 0 <= i < |calls| && succeeds(calls[i].event, calls[i].handler)|
  {
    var good := set i | 0 <= i < |calls| && succeeds(calls[i].event, calls[i].handler);
    if calls != [] {
      var n := |calls| - 1;
      SuccessesCount(calls[..n], succeeds);
      var before := set i | 0 <= i < n && succeeds(calls[..n][i].event, calls[..n][i].handler);
      assert good == before + (if succeeds(calls[n].event, calls[n].handler) then {n} else {});
    } else {
      assert good == {};
    }
  }

  // ---------------------------------------------------------------------------------------
  // Runs with handlers that yield
  // ---------------------------------------------------------------------------------------

  /** The dispatcher waits for an event, or goes through the live list: position `next` comes next,
      and while `busy` the handler before it has not returned. */
  datatype Dispatcher = Waiting | Serving(event: Event, next: nat, busy: bool)

  /** The bus, and what has happened so far: events accepted, events taken from the queue, calls. */
  datatype System = System(
    handlers: Handlers, queue: seq<Event>, stats: Stats, dispatcher: Dispatcher,
    accepted: seq<Event>, taken: seq<Event>, calls: seq<Call>)

  datatype Action =
    | DoEmit(event: Event)
    | DoEmitNowait(event: Event)
    | DoSubscribe(eventType: EventType, handler: string)
    | DoUnsubscribe(eventType: EventType, handler: string)
    | Take
    | Invoke
    | Return(succeeds: bool)
    | Finish

  predicate CanAct(s: System, a: Action) {
    match a
    case Take => s.dispatcher.Waiting? && s.queue != []
    case Invoke =>
      && s.dispatcher.Serving? && !s.dispatcher.busy
      && s.dispatcher.next < |HandlersOf(s.handlers, s.dispatcher.event.eventType)|
    case Return(_) => s.dispatcher.Serving? && s.dispatcher.busy
    case Finish =>
      && s.dispatcher.Serving? && !s.dispatcher.busy
      && s.dispatcher.next >= |HandlersOf(s.handlers, s.dispatcher.event.eventType)|
    case _ => true
  }

  function Enqueued(s: System, e: Event): System {
    s.(queue := s.queue + [e], accepted := s.accepted + [e], stats := s.stats.(emitted := s.stats.emitted + 1))
  }

  function Act(s: System, a: Action): System
    requires CanAct(s, a)
  {
    match a
    case DoEmit(e) => if Sheds(|s.queue|, e) then s else Enqueued(s, e)
    case DoEmitNowait(e) => Enqueued(s, e)
    case DoSubscribe(t, h) => s.(handlers := s.handlers[t := HandlersOf(s.handlers, t) + [h]])
    case DoUnsubscribe(t, h) =>
      if h in HandlersOf(s.handlers, t) then s.(handlers := s.handlers[t := Without(HandlersOf(s.handlers, t), h)])
      else s
    case Take =>
      var e := s.queue[0];
      s.(queue := s.queue[1..], taken := s.taken + [e],
         dispatcher := if HandlersOf(s.handlers, e.eventType) == [] then Waiting else Serving(e, 0, false))
    case Invoke =>
      var Serving(e, i, _) := s.dispatcher;
      s.(calls := s.calls + [Call(e, i, HandlersOf(s.handlers, e.eventType)[i])],
         dispatcher := Serving(e, i + 1, true))
    case Return(ok) =>
      s.(stats := if ok then s.stats.(handled := s.stats.handled + 1) else s.stats.(errors := s.stats.errors + 1),
         dispatcher := s.dispatcher.(busy := false))
    case Finish => s.(dispatcher := Waiting)
  }

  ghost predicate IsRun(trace: seq<System>, actions: seq<Action>) {
    && |trace| == |actions| + 1
    && forall n :: 0 <= n < |actions| ==> CanAct(trace[n], actions[n]) && trace[n + 1] == Act(trace[n], actions[n])
  }

  ghost predicate Fresh(s: System) {
    && s.queue == s.accepted == s.taken == [] && s.calls == [] && s.stats == Stats(0, 0, 0)
    && s.dispatcher.Waiting?
  }

  // ---------------------------------------------------------------------------------------
  // Conservation
  // ---------------------------------------------------------------------------------------

  ghost predicate Balanced(s: System) {
    && s.accepted == s.taken + s.queue
    && s.stats.emitted == |s.taken| + |s.queue|
    && s.stats.handled + s.stats.errors + (if s.dispatcher.Serving? && s.dispatcher.busy then 1 else 0) == |s.calls|
  }

  lemma BalancedStep(s: System, a: Action)
    requires Balanced(s) && CanAct(s, a)
    ensures Balanced(Act(s, a))
  {
  }

  lemma RunPrefix(trace: seq<System>, actions: seq<Action>)
    requires IsRun(trace, actions) && actions != []
    ensures IsRun(trace[..|actions|], actions[..|actions| - 1])
  {
  }

  /** MAIN: in every run events leave the queue in the order they were accepted, `emitted` is the
      number taken plus the number waiting, and every handler call that has returned is counted once,
      as handled or as an error. */
  lemma {:induction false} NothingIsLost(trace: seq<System>, actions: seq<Action>)
    requires IsRun(trace, actions) && Fresh(trace[0])
    ensures Balanced(trace[|actions|])
  {
    if actions != [] {
      RunPrefix(trace, actions);
      NothingIsLost(trace[..|actions|], actions[..|actions| - 1]);
      BalancedStep(trace[|actions| - 1], actions[|actions| - 1]);
    }
  }

  /** The events passed to either emit function. */
  function Offered(actions: seq<Action>): seq<Event> {
    if actions == [] then []
    else
      var a := actions[|actions| - 1];
      Offered(actions[..|actions| - 1]) + (if a.DoEmit? || a.DoEmitNowait? then [a.event] else [])
  }

  function NotCold(events: seq<Event>): seq<Event> {
    if events == [] then []
    else
      var e := events[|events| - 1];
      NotCold(events[..|events| - 1]) + (if e.eventType.PriceUpdated? && e.cold then [] else [e])
  }

  lemma NotColdAppend(events: seq<Event>, e: Event)
    ensures NotCold(events + [e]) ==
            NotCold(events) + (if e.eventType.PriceUpdated? && e.cold then [] else [e])
  {
  }

  /** MAIN: only cold price updates are ever dropped: all other offered events are accepted, in
      order. */
  lemma {:induction false} OnlyColdIsShed(trace: seq<System>, actions: seq<Action>)
    requires IsRun(trace, actions) && trace[0].accepted == []
    ensures NotCold(trace[|actions|].accepted) == NotCold(Offered(actions))
  {
    if actions != [] {
      var n := |actions| - 1;
      RunPrefix(trace, actions);
      OnlyColdIsShed(trace[..|actions|], actions[..n]);
      var s, a := trace[n], actions[n];
      var offered := Offered(actions[..n]);
      if a.DoEmit? || a.DoEmitNowait? {
        NotColdAppend(offered, a.event);
        NotColdAppend(s.accepted, a.event);
      } else {
        assert offered + [] == offered;
      }
    }
  }

  /** Below the shedding depth nothing is dropped at all. */
  lemma {:induction false} NothingShedBelowDepth(trace: seq<System>, actions: seq<Action>)
    requires IsRun(trace, actions) && trace[0].accepted == []
    requires forall n :: 0 <= n < |trace| ==> |trace[n].queue| < 300
    ensures trace[|actions|].accepted == Offered(actions)
  {
    if actions != [] {
      var n := |actions| - 1;
      RunPrefix(trace, actions);
      NothingShedBelowDepth(trace[..|actions|], actions[..n]);
      assert |trace[n].queue| < 300;
      assert Offered(actions[..n]) + [] == Offered(actions[..n]);
    }
  }

  /** What an emit does, at any depth: a cold price update that meets 300 or more waiting events is dropped
      without a trace, everything else joins the end of the queue and is counted. */
  lemma ShedsExactlyIf(s: System, e: Event)
    ensures var s' := Act(s, DoEmit(e));
            if |s.queue| >= 300 && e.eventType == PriceUpdated && e.cold then s' == s
            else s'.queue == s.queue + [e] && s'.accepted == s.accepted + [e]
                 && s'.stats == s.stats.(emitted := s.stats.emitted + 1) && s'.handlers == s.handlers
                 && s'.dispatcher == s.dispatcher && s'.calls == s.calls && s'.taken == s.taken
  {
  }

  // ---------------------------------------------------------------------------------------
  // Exactly once, in order
  // ---------------------------------------------------------------------------------------

  function OfType(events: seq<Event>, t: EventType): seq<Event> {
    if events == [] then []
    else
      var e := events[|events| - 1];
      OfType(events[..|events| - 1], t) + (if e.eventType == t then [e] else [])
  }

  lemma OfTypeAppend(events: seq<Event>, e: Event, t: EventType)
    ensures OfType(events + [e], t) == if e.eventType == t then OfType(events, t) + [e] else OfType(events, t)
  {
  }

  /** The position of a subscription after an action: it moves up when an earlier entry leaves. */
  function SlotAfter(s: System, a: Action, t: EventType, slot: nat): nat {
    if a.DoUnsubscribe? && a.eventType == t && FirstIndex(HandlersOf(s.handlers, t), a.handler) < slot
    then slot - 1 else slot
  }

  /** The action removes this very subscription. */
  predicate Ends(s: System, a: Action, t: EventType, slot: nat) {
    && a.DoUnsubscribe? && a.eventType == t
    && slot < |HandlersOf(s.handlers, t)| && FirstIndex(HandlersOf(s.handlers, t), a.handler) == slot
  }

  /** The action removes a handler that was already called for the event being served, and this
      subscription is the very next one. */
  predicate Misses(s: System, a: Action, t: EventType, slot: nat) {
    && a.DoUnsubscribe? && a.eventType == t
    && s.dispatcher.Serving? && s.dispatcher.event.eventType == t && s.dispatcher.next == slot
    && FirstIndex(HandlersOf(s.handlers, t), a.handler) < slot
  }

  /** The event being served, if it has not reached this subscription yet. */
  function OwedTo(s: System, t: EventType, slot: nat): seq<Event> {
    if s.dispatcher.Serving? && s.dispatcher.event.eventType == t && s.dispatcher.next <= slot
    then [s.dispatcher.event] else []
  }

  function TakenNow(s: System, a: Action, t: EventType): seq<Event> {
    if a.Take? && s.queue != [] && s.queue[0].eventType == t then [s.queue[0]] else []
  }

  /** The event of a call made to this subscription. */
  function DeliveredNow(s: System, a: Action, t: EventType, slot: nat): seq<Event> {
    if a.Invoke? && s.dispatcher.Serving? && s.dispatcher.event.eventType == t && s.dispatcher.next == slot
    then [s.dispatcher.event] else []
  }

  /** One step accounts for every event due to a subscription: delivered, missed or still owed. */
  lemma StepAccounts(s: System, a: Action, t: EventType, slot: nat)
    requires CanAct(s, a) && slot < |HandlersOf(s.handlers, t)| && !Ends(s, a, t, slot)
    ensures var hs, slot' := HandlersOf(Act(s, a).handlers, t), SlotAfter(s, a, t, slot);
            slot' < |hs| && hs[slot'] == HandlersOf(s.handlers, t)[slot]
    ensures OwedTo(s, t, slot) + TakenNow(s, a, t) ==
            DeliveredNow(s, a, t, slot)
            + (if Misses(s, a, t, slot) then [s.dispatcher.event] else [])
            + OwedTo(Act(s, a), t, SlotAfter(s, a, t, slot))
  {
    if a.DoUnsubscribe? && a.eventType == t {
      UnsubscribeAccounts(s, a.handler, t, slot);
    }
  }

  lemma UnsubscribeAccounts(s: System, handler: string, t: EventType, slot: nat)
    requires slot < |HandlersOf(s.handlers, t)| && FirstIndex(HandlersOf(s.handlers, t), handler) != slot
    ensures var a := DoUnsubscribe(t, handler);
            var hs, slot' := HandlersOf(Act(s, a).handlers, t), SlotAfter(s, a, t, slot);
            && slot' < |hs| && hs[slot'] == HandlersOf(s.handlers, t)[slot]
            && OwedTo(s, t, slot) == (if Misses(s, a, t, slot) then [s.dispatcher.event] else OwedTo(Act(s, a), t, slot'))
            && (Misses(s, a, t, slot) ==> OwedTo(Act(s, a), t, slot') == [])
  {
    var hs := HandlersOf(s.handlers, t);
    var r := FirstIndex(hs, handler);
    assert HandlersOf(Act(s, DoUnsubscribe(t, handler)).handlers, t) == Without(hs, handler);
    assert r < |hs| ==> Without(hs, handler) == hs[..r] + hs[r + 1..];
  }

  // --- Over a run ---

  /** Where a subscription that starts at `slot` stands at the end of the run. */
  function SlotAt(trace: seq<System>, actions: seq<Action>, t: EventType, slot: nat): nat
    requires |trace| == |actions| + 1
  {
    if actions == [] then slot
    else
      var n := |actions| - 1;
      SlotAfter(trace[n], actions[n], t, SlotAt(trace[..|actions|], actions[..n], t, slot))
  }

  /** The events of type `t` taken from the queue during the run. */
  function TakenIn(trace: seq<System>, actions: seq<Action>, t: EventType): seq<Event>
    requires |trace| == |actions| + 1
  {
    if actions == [] then []
    else
      var n := |actions| - 1;
      TakenIn(trace[..|actions|], actions[..n], t) + TakenNow(trace[n], actions[n], t)
  }

  /** The events the subscription was called with during the run. */
  function Delivered(trace: seq<System>, actions: seq<Action>, t: EventType, slot: nat): seq<Event>
    requires |trace| == |actions| + 1
  {
    if actions == [] then []
    else
      var n := |actions| - 1;
      Delivered(trace[..|actions|], actions[..n], t, slot)
      + DeliveredNow(trace[n], actions[n], t, SlotAt(trace[..|actions|], actions[..n], t, slot))
  }

  /** How often the subscription was skipped. */
  function Missed(trace: seq<System>, actions: seq<Action>, t: EventType, slot: nat): nat
    requires |trace| == |actions| + 1
  {
    if actions == [] then 0
    else
      var n := |actions| - 1;
      Missed(trace[..|actions|], actions[..n], t, slot)
      + (if Misses(trace[n], actions[n], t, SlotAt(trace[..|actions|], actions[..n], t, slot)) then 1 else 0)
  }

  /** The events due to the subscription, each miss striking out the one being served. */
  function Spared(trace: seq<System>, actions: seq<Action>, t: EventType, slot: nat): seq<Event>
    requires |trace| == |actions| + 1
  {
    if actions == [] then OwedTo(trace[0], t, slot)
    else
      var n := |actions| - 1;
      var before := Spared(trace[..|actions|], actions[..n], t, slot) + TakenNow(trace[n], actions[n], t);
      if before != [] && Misses(trace[n], actions[n], t, SlotAt(trace[..|actions|], actions[..n], t, slot))
      then before[..|before| - 1] else before
  }

  /** The subscription is never itself removed. */
  ghost predicate Stays(trace: seq<System>, actions: seq<Action>, t: EventType, slot: nat)
    requires |trace| == |actions| + 1
  {
    && slot < |HandlersOf(trace[0].handlers, t)|
    && (actions != [] ==>
          var n := |actions| - 1;
          && Stays(trace[..|actions|], actions[..n], t, slot)
          && !Ends(trace[n], actions[n], t, SlotAt(trace[..|actions|], actions[..n], t, slot)))
  }

  /** The subscription is still in the list, at the position that was tracked. */
  lemma {:induction false} StaysInList(trace: seq<System>, actions: seq<Action>, t: EventType, slot: nat)
    requires IsRun(trace, actions) && Stays(trace, actions, t, slot)
    ensures var hs, slot' := HandlersOf(trace[|actions|].handlers, t), SlotAt(trace, actions, t, slot);
            slot' < |hs| && hs[slot'] == HandlersOf(trace[0].handlers, t)[slot]
  {
    if actions != [] {
      var n := |actions| - 1;
      RunPrefix(trace, actions);
      StaysInList(trace[..|actions|], actions[..n], t, slot);
      StepAccounts(trace[n], actions[n], t, SlotAt(trace[..|actions|], actions[..n], t, slot));
    }
  }

  lemma TallyStep(due: seq<Event>, delivered: seq<Event>, owed: seq<Event>, taken: seq<Event>,
                  deliveredNow: seq<Event>, missed: seq<Event>, owed': seq<Event>)
    requires due == delivered + owed && owed + taken == deliveredNow + missed + owed'
    requires missed != [] ==> |missed| == 1 && deliveredNow == owed' == []
    ensures (if missed == [] then due + taken else (due + taken)[..|due + taken| - 1]) ==
            (delivered + deliveredNow) + owed'
  {
    assert due + taken == delivered + (owed + taken);
    if missed == [] {
      assert deliveredNow + missed + owed' == deliveredNow + owed';
      assert delivered + (deliveredNow + owed') == (delivered + deliveredNow) + owed';
    } else {
      assert deliveredNow + missed + owed' == missed;
      assert (delivered + missed)[..|delivered + missed| - 1] == delivered;
      assert (delivered + deliveredNow) + owed' == delivered;
    }
  }

  /** MAIN: under any interleaving of emitters, yielding handlers, subscriptions and unsubscriptions, a
      subscription that stays receives, once each and in order, the event owed to it at the start and
      every event of its type taken since, but for those it misses and the one it is still owed. */
  lemma {:induction false} DeliveredInOrder(trace: seq<System>, actions: seq<Action>, t: EventType, slot: nat)
    requires IsRun(trace, actions) && Stays(trace, actions, t, slot)
    ensures Spared(trace, actions, t, slot) ==
            Delivered(trace, actions, t, slot) + OwedTo(trace[|actions|], t, SlotAt(trace, actions, t, slot))
  {
    if actions != [] {
      var n := |actions| - 1;
      RunPrefix(trace, actions);
      var before, done := trace[..|actions|], actions[..n];
      DeliveredInOrder(before, done, t, slot);
      StaysInList(before, done, t, slot);
      var s, a, at := trace[n], actions[n], SlotAt(before, done, t, slot);
      StepAccounts(s, a, t, at);
      TallyStep(Spared(before, done, t, slot), Delivered(before, done, t, slot), OwedTo(s, t, at),
                TakenNow(s, a, t), DeliveredNow(s, a, t, at), if Misses(s, a, t, at) then [s.dispatcher.event] else [],
                OwedTo(trace[n + 1], t, SlotAfter(s, a, t, at)));
    } else {
      assert Delivered(trace, actions, t, slot) + OwedTo(trace[0], t, slot) == OwedTo(trace[0], t, slot);
    }
  }

  /** Every miss costs exactly one event. */
  lemma {:induction false} MissesAreCounted(trace: seq<System>, actions: seq<Action>, t: EventType, slot: nat)
    requires IsRun(trace, actions) && Stays(trace, actions, t, slot)
    ensures var due := OwedTo(trace[0], t, slot) + TakenIn(trace, actions, t);
            && |due| == |Spared(trace, actions, t, slot)| + Missed(trace, actions, t, slot)
            && (Missed(trace, actions, t, slot) == 0 ==> Spared(trace, actions, t, slot) == due)
  {
    if actions != [] {
      var n := |actions| - 1;
      RunPrefix(trace, actions);
      var before, done := trace[..|actions|], actions[..n];
      MissesAreCounted(before, done, t, slot);
      if Misses(trace[n], actions[n], t, SlotAt(before, done, t, slot)) {
        MissHasVictim(before, done, t, slot, actions[n]);
      }
      Regroup(OwedTo(trace[0], t, slot), TakenIn(before, done, t), TakenNow(trace[n], actions[n], t));
    }
  }

  lemma Regroup(x: seq<Event>, y: seq<Event>, z: seq<Event>)
    ensures x + (y + z) == (x + y) + z
  {
  }

  /** A skipped subscription was owed the event being served. */
  lemma MissHasVictim(trace: seq<System>, actions: seq<Action>, t: EventType, slot: nat, a: Action)
    requires IsRun(trace, actions) && Stays(trace, actions, t, slot)
    requires Misses(trace[|actions|], a, t, SlotAt(trace, actions, t, slot))
    ensures Spared(trace, actions, t, slot) != []
  {
    DeliveredInOrder(trace, actions, t, slot);
  }

  /** MAIN: exactly once, in order.  Under any interleaving a subscription that stays has been called with
      every event of its type, once each and in order, but for the one it is still owed, if and only if
      it was never skipped: never the next in line when a handler already called for the event being
      served was removed. */
  lemma DeliveredExactlyOnce(trace: seq<System>, actions: seq<Action>, t: EventType, slot: nat)
    requires IsRun(trace, actions) && Stays(trace, actions, t, slot)
    ensures OwedTo(trace[0], t, slot) + TakenIn(trace, actions, t) ==
            Delivered(trace, actions, t, slot) + OwedTo(trace[|actions|], t, SlotAt(trace, actions, t, slot))
            <==> Missed(trace, actions, t, slot) == 0
  {
    DeliveredInOrder(trace, actions, t, slot);
    MissesAreCounted(trace, actions, t, slot);
  }

  lemma {:induction false} TakenInRun(trace: seq<System>, actions: seq<Action>, t: EventType)
    requires IsRun(trace, actions)
    ensures OfType(trace[|actions|].taken, t) == OfType(trace[0].taken, t) + TakenIn(trace, actions, t)
  {
    if actions != [] {
      var n := |actions| - 1;
      RunPrefix(trace, actions);
      TakenInRun(trace[..|actions|], actions[..n], t);
      TakenStep(trace[n], actions[n], t);
      Regroup(OfType(trace[0].taken, t), TakenIn(trace[..|actions|], actions[..n], t), TakenNow(trace[n], actions[n], t));
    }
  }

  lemma TakenStep(s: System, a: Action, t: EventType)
    requires CanAct(s, a)
    ensures OfType(Act(s, a).taken, t) == OfType(s.taken, t) + TakenNow(s, a, t)
  {
    if a.Take? {
      OfTypeAppend(s.taken, s.queue[0], t);
    }
  }

  /** MAIN: end to end.  From a fresh bus with its subscriptions in place, once the queue is empty and the
      dispatcher waits, a subscription that stays has received exactly the accepted events of its type, in
      emission order, if and only if it was never skipped. */
  lemma DrainedBusDeliveredAll(trace: seq<System>, actions: seq<Action>, t: EventType, slot: nat)
    requires IsRun(trace, actions) && Fresh(trace[0]) && Stays(trace, actions, t, slot)
    requires trace[|actions|].queue == [] && trace[|actions|].dispatcher.Waiting?
    ensures Delivered(trace, actions, t, slot) == OfType(trace[|actions|].accepted, t)
            <==> Missed(trace, actions, t, slot) == 0
  {
    NothingIsLost(trace, actions);
    DeliveredExactlyOnce(trace, actions, t, slot);
    TakenInRun(trace, actions, t);
    var s := trace[|actions|];
    assert s.taken + s.queue == s.taken;
    assert [] + TakenIn(trace, actions, t) == TakenIn(trace, actions, t);
    assert Delivered(trace, actions, t, slot) + [] == Delivered(trace, actions, t, slot);
  }

  /** Nobody is skipped while nobody unsubscribes from the type. */
  lemma {:induction false} OnlyUnsubscribingSkips(trace: seq<System>, actions: seq<Action>, t: EventType, slot: nat)
    requires IsRun(trace, actions) && slot < |HandlersOf(trace[0].handlers, t)|
    requires forall n :: 0 <= n < |actions| && actions[n].DoUnsubscribe? ==> actions[n].eventType != t
    ensures Stays(trace, actions, t, slot) && SlotAt(trace, actions, t, slot) == slot
    ensures Missed(trace, actions, t, slot) == 0
  {
    if actions != [] {
      RunPrefix(trace, actions);
      OnlyUnsubscribingSkips(trace[..|actions|], actions[..|actions| - 1], t, slot);
    }
  }

  // ---------------------------------------------------------------------------------------
  // Unsubscribing while an event is being served
  // ---------------------------------------------------------------------------------------

  /** The handlers still to be called for the event being served, if nothing changes. */
  function Pending(s: System): seq<string>
    requires s.dispatcher.Serving?
  {
    var hs := HandlersOf(s.handlers, s.dispatcher.event.eventType);
    if s.dispatcher.next <= |hs| then hs[s.dispatcher.next..] else []
  }

  lemma RemoveUnderIteration(hs: seq<string>, i: nat, r: nat)
    requires i <= |hs| && r < |hs|
    ensures var after := hs[..r] + hs[r + 1..];
            if r >= i then i <= |after| && after[i..] == hs[i..][..r - i] + hs[i..][r - i + 1..]
            else if i < |hs| then i <= |after| && after[i..] == hs[i..][1..]
            else i > |after|
  {
  }

  /** MAIN: the exact effect of unsubscribing from the type being served.  Removing a handler not
      yet called takes just that handler off; removing one already called shifts the list under
      the iteration, and the next handler, which nobody unsubscribed, misses the event. */
  lemma UnsubscribeWhileServing(s: System, handler: string)
    requires s.dispatcher.Serving? && handler in HandlersOf(s.handlers, s.dispatcher.event.eventType)
    ensures var t, i := s.dispatcher.event.eventType, s.dispatcher.next;
            var r := FirstIndex(HandlersOf(s.handlers, t), handler);
            Pending(Act(s, DoUnsubscribe(t, handler))) ==
            if r >= i then Pending(s)[..r - i] + Pending(s)[r - i + 1..]
            else if Pending(s) == [] then [] else Pending(s)[1..]
  {
    var t, i := s.dispatcher.event.eventType, s.dispatcher.next;
    var hs := HandlersOf(s.handlers, t);
    assert HandlersOf(Act(s, DoUnsubscribe(t, handler)).handlers, t) == Without(hs, handler);
    if i <= |hs| {
      RemoveUnderIteration(hs, i, FirstIndex(hs, handler));
    }
  }

  /** The calls still pending are afterwards exactly those of the other handlers, in order, if and only if
      the removed one was itself still pending or no call was. */
  lemma UnsubscribeIsHarmlessIff(s: System, handler: string)
    requires s.dispatcher.Serving? && handler in HandlersOf(s.handlers, s.dispatcher.event.eventType)
    ensures var t, i := s.dispatcher.event.eventType, s.dispatcher.next;
            var r := FirstIndex(HandlersOf(s.handlers, t), handler);
            var others := if r >= i then Pending(s)[..r - i] + Pending(s)[r - i + 1..] else Pending(s);
            Pending(Act(s, DoUnsubscribe(t, handler))) == others <==> r >= i || Pending(s) == []
  {
    UnsubscribeWhileServing(s, handler);
  }

  /** A handler that unsubscribes while it runs makes the handler after it, whichever that is, miss the
      event. */
  lemma OneShotHandlerSkipsNext(s: System)
    requires CanAct(s, Invoke) && s.dispatcher.next + 1 < |HandlersOf(s.handlers, s.dispatcher.event.eventType)|
    ensures var t, i := s.dispatcher.event.eventType, s.dispatcher.next;
            var calling, leave := Act(s, Invoke), DoUnsubscribe(t, HandlersOf(s.handlers, t)[i]);
            Misses(calling, leave, t, i + 1) && Pending(Act(calling, leave)) == Pending(s)[2..]
  {
    var t, i := s.dispatcher.event.eventType, s.dispatcher.next;
    var hs := HandlersOf(s.handlers, t);
    UnsubscribeWhileServing(Act(s, Invoke), hs[i]);
  }

  // ---------------------------------------------------------------------------------------
  // A turn in which no handler yields
  // ---------------------------------------------------------------------------------------

  /** What the turn has done after calling the first `n` handlers. */
  ghost predicate Served(s: System, s': System, n: nat, succeeds: (Event, string) -> bool)
    requires s.queue != []
  {
    var e := s.queue[0];
    var hs := HandlersOf(s.handlers, e.eventType);
    && n <= |hs|
    && s'.handlers == s.handlers && s'.queue == s.queue[1..] && s'.accepted == s.accepted && s'.taken == s.taken + [e]
    && s'.calls == s.calls + TurnCalls(e, hs[..n])
    && s'.stats.emitted == s.stats.emitted
    && s'.stats.handled == s.stats.handled + Successes(TurnCalls(e, hs[..n]), succeeds)
    && s'.stats.handled + s'.stats.errors == s.stats.handled + s.stats.errors + n
  }

  lemma ServeOne(s: System, s': System, n: nat, succeeds: (Event, string) -> bool) returns (ok: bool)
    requires s.queue != [] && Served(s, s', n, succeeds) && s'.dispatcher == Serving(s.queue[0], n, false)
    requires n < |HandlersOf(s.handlers, s.queue[0].eventType)|
    ensures CanAct(s', Invoke) && CanAct(Act(s', Invoke), Return(ok))
    ensures var s'' := Act(Act(s', Invoke), Return(ok));
            Served(s, s'', n + 1, succeeds) && s''.dispatcher == Serving(s.queue[0], n + 1, false)
  {
    var e := s.queue[0];
    var hs := HandlersOf(s.handlers, e.eventType);
    ok := succeeds(e, hs[n]);
    TurnCallsNext(e, hs, n);
    assert (TurnCalls(e, hs[..n]) + [Call(e, n, hs[n])])[..n] == TurnCalls(e, hs[..n]);
  }

  lemma Extend(trace: seq<System>, actions: seq<Action>, a: Action)
    requires IsRun(trace, actions) && CanAct(trace[|actions|], a)
    ensures IsRun(trace + [Act(trace[|actions|], a)], actions + [a])
  {
  }

  lemma {:induction false} ServeSome(s: System, n: nat, succeeds: (Event, string) -> bool)
    returns (trace: seq<System>, actions: seq<Action>)
    requires CanAct(s, Take) && 0 < |HandlersOf(s.handlers, s.queue[0].eventType)| && n <= |HandlersOf(s.handlers, s.queue[0].eventType)|
    ensures IsRun(trace, actions) && trace[0] == s && Served(s, trace[|actions|], n, succeeds)
    ensures trace[|actions|].dispatcher == Serving(s.queue[0], n, false)
  {
    if n == 0 {
      trace, actions := [s, Act(s, Take)], [Take];
    } else {
      trace, actions := ServeSome(s, n - 1, succeeds);
      var ok := ServeOne(s, trace[|actions|], n - 1, succeeds);
      Extend(trace, actions, Invoke);
      trace, actions := trace + [Act(trace[|actions|], Invoke)], actions + [Invoke];
      Extend(trace, actions, Return(ok));
      trace, actions := trace + [Act(trace[|actions|], Return(ok))], actions + [Return(ok)];
    }
  }

  /** The loop of `DispatchNext` is a run of the interleaved system: what it promises is reached by taking
      the event, calling and returning from each handler, and finishing. */
  lemma TurnIsRun(s: System, succeeds: (Event, string) -> bool) returns (trace: seq<System>, actions: seq<Action>)
    requires CanAct(s, Take)
    ensures IsRun(trace, actions) && trace[0] == s && trace[|actions|].dispatcher.Waiting?
    ensures Served(s, trace[|actions|], |HandlersOf(s.handlers, s.queue[0].eventType)|, succeeds)
  {
    var n := |HandlersOf(s.handlers, s.queue[0].eventType)|;
    if n == 0 {
      trace, actions := [s, Act(s, Take)], [Take];
    } else {
      trace, actions := ServeSome(s, n, succeeds);
      Extend(trace, actions, Finish);
      trace, actions := trace + [Act(trace[|actions|], Finish)], actions + [Finish];
    }
  }
}
