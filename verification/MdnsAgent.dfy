/**
 Scheduling in the mDNS agent: due responses and periodic queries feed a bounded action
 queue (crates/mdns/src/agent.rs).  An action stands for one encoded datagram.
 */
module MdnsAgent {
  import opened Bytes

  const MAX_SCHEDULED: nat := 128
  const MAX_ACTIONS: nat := 256
  const MAX_EMITTED: nat := 128
  const FIRST_DELAY: nat := 1000

  datatype Action = Response(iface: nat, payload: nat) | Query(iface: nat)

  /** A delayed answer: the datagrams it still has to send. */
  datatype Scheduled = Scheduled(due: nat, items: seq<Action>)

  datatype Agent = Agent(
    closed: bool,
    interfaces: seq<nat>,
    addrs: seq<nat>,
    interval: nat,
    nextQuery: nat,
    fastDelay: nat,
    fastPhase: bool,
    scheduled: seq<Scheduled>,
    actions: seq<Action>)

  function New(interval: nat): Agent {
    Agent(false, [], [], interval, 0, FIRST_DELAY, true, [], [])
  }

  function Restart(a: Agent, now: nat): Agent {
    a.(fastPhase := true, fastDelay := FIRST_DELAY, nextQuery := now, scheduled := [], actions := [])
  }

  function SetInterfaces(a: Agent, interfaces: seq<nat>, now: nat): Agent {
    if a.closed || a.interfaces == interfaces then a else Restart(a, now).(interfaces := interfaces)
  }

  /** Also says whether the addresses changed. */
  function SetAddrs(a: Agent, addrs: seq<nat>, now: nat): (Agent, bool) {
    if a.closed || a.addrs == addrs then (a, false) else (Restart(a, now).(addrs := addrs), true)
  }

  /** `handle_query`: at the cap, or with nothing to say, the question is ignored. */
  function Schedule(a: Agent, s: Scheduled): Agent {
    if a.closed || |a.scheduled| == MAX_SCHEDULED || s.items == [] then a
    else a.(scheduled := a.scheduled + [s])
  }

  /** What a received datagram amounts to: a question to answer, a live peer, or nothing. */
  datatype Heard = Asked(answer: Scheduled) | PeerSeen | Ignored

  /** `handle_packet`: hearing from a live peer ends the fast phase. */
  function Hear(a: Agent, h: Heard, now: nat): Agent {
    match h
    case Asked(answer) => Schedule(a, answer)
    case PeerSeen =>
      if a.closed then a else a.(fastPhase := false, fastDelay := a.interval, nextQuery := SatAdd(now, a.interval))
    case Ignored => a
  }

  // ---- the tick ----

  /** How much one response may emit with `emitted` already out and `queued` waiting. */
  function Allowed(s: Scheduled, now: nat, emitted: nat, queued: nat): (n: nat)
    ensures n <= |s.items|
    ensures emitted <= MAX_EMITTED && queued <= MAX_ACTIONS ==> emitted + n <= MAX_EMITTED && queued + n <= MAX_ACTIONS
  {
    if s.due > now then 0 else Min(|s.items|, Min(SatSub(MAX_EMITTED, emitted), SatSub(MAX_ACTIONS, queued)))
  }

  datatype Due = Due(scheduled: seq<Scheduled>, actions: seq<Action>, emitted: nat)

  /** The responses in order, each emitting what the caps allow; finished ones are dropped. */
  function EmitDue(scheduled: seq<Scheduled>, now: nat, actions: seq<Action>): Due {
    if scheduled == [] then Due([], actions, 0)
    else
      var n := |scheduled| - 1;
      var d, s := EmitDue(scheduled[..n], now, actions), scheduled[n];
      var k := Allowed(s, now, d.emitted, |d.actions|);
      Due(d.scheduled + (if k < |s.items| then [s.(items := s.items[k..])] else []), d.actions + s.items[..k], d.emitted + k)
  }

  /** One query per interface while there is room. */
  function Queries(interfaces: seq<nat>, actions: seq<Action>): seq<Action> {
    if interfaces == [] then actions
    else
      var n := |interfaces| - 1;
      var before := Queries(interfaces[..n], actions);
      if |before| >= MAX_ACTIONS then before else before + [Query(interfaces[n])]
  }

  function HandleTick(a: Agent, now: nat): Agent {
    if a.closed then a
    else
      var d := EmitDue(a.scheduled, now, a.actions);
      var b := a.(scheduled := d.scheduled, actions := d.actions);
      if now < a.nextQuery then b
      else
        var delay := Min(a.fastDelay, a.interval);
        b.(actions := Queries(a.interfaces, d.actions),
           nextQuery := SatAdd(now, if a.fastPhase then delay else a.interval),
           fastDelay := if a.fastPhase then Min(if 2 * delay > U64_MAX then U64_MAX else 2 * delay, a.interval) else a.fastDelay)
  }

  function Shutdown(a: Agent, goodbyes: seq<Action>): Agent {
    if a.closed then a else a.(closed := true, scheduled := [], actions := goodbyes)
  }

  /** The earliest scheduled answer. */
  function MinDue(scheduled: seq<Scheduled>): (r: Option<nat>)
    ensures r.None? <==> scheduled == []
    ensures r.Some? ==> forall i | 0 <= i < |scheduled| :: r.value <= scheduled[i].due
    ensures r.Some? ==> exists i | 0 <= i < |scheduled| :: r.value == scheduled[i].due
  {
    if scheduled == [] then None
    else
      var n := |scheduled| - 1;
      var rest := MinDue(scheduled[..n]);
      if rest.None? then Some(scheduled[n].due) else Some(Min(rest.value, scheduled[n].due))
  }

  function NextTimeout(a: Agent, now: nat): Option<nat> {
    if a.closed then None
    else
      var due := MinDue(a.scheduled);
      Some(SatSub(if due.Some? then Min(due.value, a.nextQuery) else a.nextQuery, now))
  }

  // ---- bounds ----

  /** An open agent's queues are within their caps. */
  predicate Bounded(a: Agent) {
    !a.closed ==> |a.scheduled| <= MAX_SCHEDULED && |a.actions| <= MAX_ACTIONS
  }

  lemma {:induction false} EmitBounded(scheduled: seq<Scheduled>, now: nat, actions: seq<Action>)
    requires |actions| <= MAX_ACTIONS
    ensures var d := EmitDue(scheduled, now, actions);
            && |d.scheduled| <= |scheduled| && |d.actions| <= MAX_ACTIONS && d.emitted <= MAX_EMITTED
            && actions <= d.actions
  {
    hide Allowed;
    if scheduled != [] {
      EmitBounded(scheduled[..|scheduled| - 1], now, actions);
    }
  }

  lemma {:induction false} QueriesBounded(interfaces: seq<nat>, actions: seq<Action>)
    requires |actions| <= MAX_ACTIONS
    ensures |Queries(interfaces, actions)| <= MAX_ACTIONS && actions <= Queries(interfaces, actions)
  {
    if interfaces != [] {
      QueriesBounded(interfaces[..|interfaces| - 1], actions);
    }
  }

  /** A tick only appends to the queue, and keeps the caps. */
  lemma TickBounded(a: Agent, now: nat)
    requires Bounded(a)
    ensures Bounded(HandleTick(a, now)) && HandleTick(a, now).closed == a.closed
    ensures !a.closed ==> a.actions <= HandleTick(a, now).actions
  {
    hide EmitDue, Queries;
    if !a.closed {
      EmitBounded(a.scheduled, now, a.actions);
      QueriesBounded(a.interfaces, EmitDue(a.scheduled, now, a.actions).actions);
    }
  }

  lemma InputsBounded(a: Agent, h: Heard, interfaces: seq<nat>, addrs: seq<nat>, now: nat)
    requires Bounded(a)
    ensures Bounded(Hear(a, h, now)) && Bounded(SetInterfaces(a, interfaces, now)) && Bounded(SetAddrs(a, addrs, now).0)
    ensures Hear(a, h, now).closed == a.closed && SetInterfaces(a, interfaces, now).closed == a.closed
    ensures SetAddrs(a, addrs, now).0.closed == a.closed
  {
  }

  // ---- the pace of queries ----

  /** The fast phase starts a second apart and never leaves the interval; afterwards the interval is the pace. */
  predicate Paced(a: Agent) {
    && Min(FIRST_DELAY, a.interval) <= a.fastDelay
    && (!a.fastPhase ==> a.fastDelay == a.interval)
  }

  lemma InputsPaced(a: Agent, h: Heard, interfaces: seq<nat>, addrs: seq<nat>, now: nat)
    requires Paced(a)
    ensures Paced(Hear(a, h, now)) && Paced(SetInterfaces(a, interfaces, now)) && Paced(SetAddrs(a, addrs, now).0)
  {
  }

  lemma TickKeepsPace(a: Agent, now: nat)
    requires Paced(a)
    ensures Paced(HandleTick(a, now))
  {
    hide EmitDue, Queries;
  }

  function Ticks(a: Agent, times: seq<nat>): Agent {
    if times == [] then a else HandleTick(Ticks(a, times[..|times| - 1]), times[|times| - 1])
  }

  /** How many of the ticks queried. */
  function QueryCount(a: Agent, times: seq<nat>): nat {
    if times == [] then 0
    else
      var before, now := times[..|times| - 1], times[|times| - 1];
      QueryCount(a, before) + if now >= Ticks(a, before).nextQuery then 1 else 0
  }

  /** The delay after `n` queries, before it is capped. */
  function Doubled(n: nat): nat {
    if n == 0 then FIRST_DELAY else 2 * Doubled(n - 1)
  }

  /**
   Ticking a fresh agent that hears nobody, at any times: the delay after the n-th query is a
   second doubled n - 1 times, or the interval once that is shorter.
   */
  lemma {:induction false} FastPhaseDoubles(a: Agent, times: seq<nat>)
    requires !a.closed && a.fastPhase && a.fastDelay == FIRST_DELAY && a.interval <= U64_MAX
    ensures var b := Ticks(a, times);
            && !b.closed && b.fastPhase && b.interval == a.interval
            && Min(b.fastDelay, a.interval) == Min(Doubled(QueryCount(a, times)), a.interval)
    ensures times != [] ==>
              var before, now := times[..|times| - 1], times[|times| - 1];
              now >= Ticks(a, before).nextQuery ==>
                Ticks(a, times).nextQuery == SatAdd(now, Min(Doubled(QueryCount(a, before)), a.interval))
  {
    hide EmitDue, Queries;
    if times != [] {
      FastPhaseDoubles(a, times[..|times| - 1]);
    }
  }

  /** Once a live peer was heard, queries are an interval apart, counted from the hearing. */
  lemma {:induction false} HeardPaceIsSteady(a: Agent, heard: nat, times: seq<nat>)
    requires !a.closed
    ensures var b := Hear(a, PeerSeen, heard);
            && !Ticks(b, times).closed && !Ticks(b, times).fastPhase && Ticks(b, times).interval == a.interval
            && b.nextQuery == SatAdd(heard, a.interval)
    ensures times != [] ==>
              var b, before, now := Hear(a, PeerSeen, heard), times[..|times| - 1], times[|times| - 1];
              Ticks(b, times).nextQuery ==
              if now >= Ticks(b, before).nextQuery then SatAdd(now, a.interval) else Ticks(b, before).nextQuery
  {
    hide EmitDue, Queries;
    if times != [] {
      HeardPaceIsSteady(a, heard, times[..|times| - 1]);
    }
  }

  // ---- no datagram is lost on the way to the queue ----

  /** Everything still to be sent by the scheduled answers, in order. */
  function Remaining(scheduled: seq<Scheduled>): seq<Action> {
    if scheduled == [] then [] else Remaining(scheduled[..|scheduled| - 1]) + scheduled[|scheduled| - 1].items
  }

  lemma RemainingSnoc(scheduled: seq<Scheduled>, s: Scheduled)
    ensures Remaining(scheduled + [s]) == Remaining(scheduled) + s.items
  {
    assert (scheduled + [s])[..|scheduled|] == scheduled;
  }

  /** Everything queued or still to be queued. */
  ghost function Waiting(queue: seq<Action>, rest: seq<Action>): multiset<Action> {
    multiset(queue) + multiset(rest)
  }

  lemma Moved(queue: seq<Action>, rest: seq<Action>, items: seq<Action>, k: nat)
    requires k <= |items|
    ensures Waiting(queue + items[..k], rest + items[k..]) == Waiting(queue, rest) + multiset(items)
  {
    assert items == items[..k] + items[k..];
  }

  lemma Extended(queue: seq<Action>, rest: seq<Action>, items: seq<Action>)
    ensures Waiting(queue, rest + items) == Waiting(queue, rest) + multiset(items)
  {
  }

  lemma RemainingLeft(left: seq<Scheduled>, s: Scheduled, k: nat)
    requires k <= |s.items|
    ensures Remaining(left + (if k < |s.items| then [s.(items := s.items[k..])] else [])) == Remaining(left) + s.items[k..]
  {
    if k < |s.items| {
      RemainingSnoc(left, s.(items := s.items[k..]));
    } else {
      assert left + [] == left && s.items[k..] == [];
      assert Remaining(left) + [] == Remaining(left);
    }
  }

  /** Emission moves datagrams from the scheduled answers to the queue and loses none. */
  lemma {:induction false} EmitConserves(scheduled: seq<Scheduled>, now: nat, actions: seq<Action>)
    ensures var d := EmitDue(scheduled, now, actions);
            Waiting(d.actions, Remaining(d.scheduled)) == Waiting(actions, Remaining(scheduled))
  {
    hide Allowed, Remaining, Waiting;
    if scheduled != [] {
      var n := |scheduled| - 1;
      EmitConserves(scheduled[..n], now, actions);
      var d, s := EmitDue(scheduled[..n], now, actions), scheduled[n];
      var k := Allowed(s, now, d.emitted, |d.actions|);
      RemainingUnfold(scheduled);
      RemainingLeft(d.scheduled, s, k);
      Moved(d.actions, Remaining(d.scheduled), s.items, k);
      Extended(actions, Remaining(scheduled[..n]), s.items);
    }
  }

  lemma RemainingUnfold(scheduled: seq<Scheduled>)
    requires scheduled != []
    ensures Remaining(scheduled) == Remaining(scheduled[..|scheduled| - 1]) + scheduled[|scheduled| - 1].items
  {
  }

  lemma EmitUnfold(scheduled: seq<Scheduled>, now: nat, actions: seq<Action>)
    requires scheduled != []
    ensures var d, s := EmitDue(scheduled[..|scheduled| - 1], now, actions), scheduled[|scheduled| - 1];
            var k := Allowed(s, now, d.emitted, |d.actions|);
            EmitDue(scheduled, now, actions)
            == Due(d.scheduled + (if k < |s.items| then [s.(items := s.items[k..])] else []), d.actions + s.items[..k], d.emitted + k)
  {
  }

  method EmitLoop(scheduled: seq<Scheduled>, now: nat, actions: seq<Action>) returns (left: seq<Scheduled>, queue: seq<Action>)
    ensures left == EmitDue(scheduled, now, actions).scheduled
    ensures queue == EmitDue(scheduled, now, actions).actions
  {
    left, queue := [], actions;
    var emitted: nat := 0;
    for i := 0 to |scheduled|
      invariant Due(left, queue, emitted) == EmitDue(scheduled[..i], now, actions)
    {
      assert scheduled[..i + 1][..i] == scheduled[..i];
      EmitUnfold(scheduled[..i + 1], now, actions);
      hide EmitDue;
      var s := scheduled[i];
      var k := EmitOne(s, now, emitted, |queue|);
      queue := queue + s.items[..k];
      emitted := emitted + k;
      if k < |s.items| {
        left := left + [s.(items := s.items[k..])];
      } else {
        assert left + [] == left;
      }
    }
    assert scheduled[..|scheduled|] == scheduled;
  }

  /** The inner loop: how many datagrams of one response go out now. */
  method EmitOne(s: Scheduled, now: nat, emitted: nat, queued: nat) returns (k: nat)
    ensures k == Allowed(s, now, emitted, queued)
  {
    k := 0;
    if s.due > now {
      return;
    }
    while k < |s.items| && emitted + k < MAX_EMITTED && queued + k < MAX_ACTIONS
      invariant k <= Allowed(s, now, emitted, queued)
    {
      k := k + 1;
    }
  }
}
