/**
 The budgeted mDNS driver (crates/mdns/src/driver.rs): one turn refreshes, retries the
 parked datagram, receives, ticks the agent and sends.  The carrier is an oracle; `handled`,
 `emitted` and `discarded` are histories that no operation reads and that only grow.
 */
module MdnsDriver {
  import opened Bytes
  import opened A = MdnsAgent

  const MAX_PER_TICK: nat := 128

  /** What the carrier says to a send. */
  datatype Outcome = Taken | NoInterface | TooBig | Congested | Broken

  datatype Handled = Handled(action: Action, sent: bool)

  datatype Driver = Driver(
    agent: Agent,
    active: bool,
    nextRefresh: nat,
    refreshEvery: nat,
    pollEvery: nat,
    backlog: bool,
    parked: Option<Action>,
    handled: seq<Handled>,
    emitted: seq<Action>,
    discarded: seq<Action>)

  datatype Refresh = RefreshFailed | Unchanged | Changed(interfaces: seq<nat>)

  /** Everything the carrier and the caller bring to one turn. */
  datatype Turn = Turn(
    now: nat,
    pollIn: bool,
    refresh: Refresh,
    addrs: seq<nat>,
    sends: seq<Outcome>,
    received: seq<Heard>,
    receiveOk: bool,
    pollOut: bool)

  function OutcomeAt(sends: seq<Outcome>, i: nat): Outcome {
    if i < |sends| then sends[i] else Taken
  }

  function Actions(handled: seq<Handled>): (r: seq<Action>)
    ensures |r| == |handled|
  {
    if handled == [] then [] else Actions(handled[..|handled| - 1]) + [handled[|handled| - 1].action]
  }

  function ParkedList(d: Driver): seq<Action> {
    if d.parked.Some? then [d.parked.value] else []
  }

  // ---- the parts of a turn ----

  /** An I/O failure ends mDNS for good. */
  function Fail(d: Driver): Driver {
    d.(parked := None, backlog := false, active := false, agent := Shutdown(d.agent, []).(actions := []))
  }

  /** A new snapshot discards the parked datagram and, unless it is the old one again, the queue. */
  function Discard(d: Driver, agent: Agent): Driver {
    d.(agent := agent, parked := None,
       discarded := d.discarded + (ParkedList(d) + if agent == d.agent then [] else d.agent.actions))
  }

  function RefreshStep(d: Driver, t: Turn): Option<Driver> {
    if t.now < d.nextRefresh then Some(d)
    else
      match t.refresh
      case RefreshFailed => None
      case Unchanged => Some(d.(nextRefresh := SatAdd(t.now, d.refreshEvery)))
      case Changed(interfaces) =>
        Some(Discard(d, SetInterfaces(d.agent, interfaces, t.now)).(nextRefresh := SatAdd(t.now, d.refreshEvery)))
  }

  function AddrStep(d: Driver, t: Turn): Driver {
    var s := SetAddrs(d.agent, t.addrs, t.now);
    if s.1 then Discard(d, s.0) else d
  }

  datatype Try = Try(driver: Driver, used: nat, congested: bool, broken: bool)

  /** The parked datagram goes first. */
  function RetryStep(d: Driver, t: Turn): Try {
    if d.parked.None? then Try(d, 0, false, false)
    else
      match OutcomeAt(t.sends, 0)
      case Congested => Try(d, 1, true, false)
      case Broken => Try(d, 1, false, true)
      case o => Try(d.(parked := None, handled := d.handled + [Handled(d.parked.value, o.Taken?)]), 1, false, false)
  }

  function ReceiveAll(a: Agent, received: seq<Heard>, now: nat): Agent {
    if received == [] then a
    else Hear(ReceiveAll(a, received[..|received| - 1], now), received[|received| - 1], now)
  }

  /** Receives and ticks the agent; what the agent queues joins the history. */
  function AgentStep(d: Driver, t: Turn): Driver {
    var a := HandleTick(ReceiveAll(d.agent, t.received, t.now), t.now);
    d.(agent := a, emitted := d.emitted + a.actions[Min(|d.agent.actions|, |a.actions|)..])
  }

  datatype Sent = Sent(driver: Driver, backlog: bool, broken: bool)

  /** `send_batch`: up to `limit` actions, parking the one that does not go. */
  function SendBatch(d: Driver, limit: nat, sends: seq<Outcome>, i: nat): Sent
    decreases limit
  {
    if d.agent.actions == [] then Sent(if limit == 0 then d.(parked := None) else d, false, false)
    else
      var first := d.agent.actions[0];
      var popped := d.(agent := d.agent.(actions := d.agent.actions[1..]));
      if limit == 0 then Sent(popped.(parked := Some(first)), true, false)
      else
        match OutcomeAt(sends, i)
        case Congested => Sent(popped.(parked := Some(first)), true, false)
        case Broken => Sent(popped, false, true)
        case o => SendBatch(popped.(handled := popped.handled + [Handled(first, o.Taken?)]), limit - 1, sends, i + 1)
  }

  /** The budget left after the parked datagram: only a sent one counts. */
  function Budget(d: Driver, t: Turn): (n: nat)
    ensures n <= MAX_PER_TICK
  {
    if d.parked.Some? && OutcomeAt(t.sends, 0).Taken? then MAX_PER_TICK - 1 else MAX_PER_TICK
  }

  /** Retry, receive, tick the agent, send. */
  function Exchanged(d: Driver, t: Turn): (Driver, bool) {
    var try_ := RetryStep(d, t);
    if try_.broken || !t.receiveOk then (Fail(try_.driver), false)
    else
      var d3 := AgentStep(try_.driver, t);
      var sent := if try_.congested then Sent(d3, true, false) else SendBatch(d3, Budget(d, t), t.sends, try_.used);
      if sent.broken || !t.pollOut then (Fail(sent.driver), false)
      else (sent.driver.(backlog := |t.received| >= MAX_PER_TICK || sent.backlog), true)
  }

  /** `tick`, and whether it succeeded. */
  function Tick(d: Driver, t: Turn): (Driver, bool) {
    if !d.active then (d, true)
    else if !t.pollIn then (Fail(d), false)
    else
      match RefreshStep(d, t)
      case None => (Fail(d), false)
      case Some(d1) => Exchanged(AddrStep(d1, t), t)
  }

  function NextTimeout(d: Driver, now: nat, carrier: Option<nat>): Option<nat> {
    if !d.active then None
    else if d.backlog then Some(0)
    else
      var t0 := Min(d.pollEvery, SatSub(d.nextRefresh, now));
      var agent := A.NextTimeout(d.agent, now);
      var t1 := if agent.Some? then Min(t0, agent.value) else t0;
      Some(if carrier.Some? then Min(t1, carrier.value) else t1)
  }

  // ---- order and conservation ----

  /** `x` is `y` with some elements left out. */
  predicate Subsequence<T(==)>(x: seq<T>, y: seq<T>)
    decreases |y|
  {
    || x == []
    || (y != [] && (Subsequence(x, Init(y)) || (Last(x) == Last(y) && Subsequence(Init(x), Init(y)))))
  }

  function Init<T>(s: seq<T>): seq<T>
    requires s != []
  {
    s[..|s| - 1]
  }

  function Last<T>(s: seq<T>): T
    requires s != []
  {
    s[|s| - 1]
  }

  lemma {:induction false} SubsequenceExtend<T>(x: seq<T>, y: seq<T>, z: seq<T>)
    requires Subsequence(x, y)
    ensures Subsequence(x + z, y + z)
    decreases |z|
  {
    if z == [] {
      assert x + z == x && y + z == y;
    } else {
      SubsequenceExtend(x, y, Init(z));
      assert Init(x + z) == x + Init(z) && Init(y + z) == y + Init(z);
      assert Last(x + z) == Last(z) == Last(y + z);
    }
  }

  lemma {:induction false} SubsequenceInit<T>(x: seq<T>, y: seq<T>)
    requires x != [] && Subsequence(x, y)
    ensures Subsequence(Init(x), y)
    decreases |y|
  {
    if Subsequence(x, Init(y)) {
      SubsequenceInit(x, Init(y));
    }
  }

  /** Leaving out a stretch in the middle. */
  lemma {:induction false} SubsequenceCut<T>(a: seq<T>, b: seq<T>, c: seq<T>, y: seq<T>)
    requires Subsequence(a + b + c, y)
    ensures Subsequence(a + c, y)
    decreases |y|, |b|
  {
    var x := a + b + c;
    if a + c == [] {
    } else if Subsequence(x, Init(y)) {
      SubsequenceCut(a, b, c, Init(y));
    } else if c != [] {
      assert Init(x) == a + b + Init(c) && Init(a + c) == a + Init(c) && Last(x) == Last(c) == Last(a + c);
      SubsequenceCut(a, b, Init(c), Init(y));
    } else if b != [] {
      SubsequenceInit(x, y);
      assert Init(x) == a + Init(b) + c;
      SubsequenceCut(a, Init(b), c, y);
    } else {
      assert x == a + c;
    }
  }

  /** Everything emitted is live or was discarded, and what is live is still in its order. */
  ghost predicate Kept(live: seq<Action>, emitted: seq<Action>, discarded: seq<Action>) {
    Subsequence(live, emitted) && multiset(emitted) == multiset(live) + multiset(discarded)
  }

  lemma KeptExtend(live: seq<Action>, emitted: seq<Action>, discarded: seq<Action>, more: seq<Action>)
    requires Kept(live, emitted, discarded)
    ensures Kept(live + more, emitted + more, discarded)
  {
    SubsequenceExtend(live, emitted, more);
  }

  lemma KeptCut(a: seq<Action>, b: seq<Action>, c: seq<Action>, emitted: seq<Action>, discarded: seq<Action>)
    requires Kept(a + b + c, emitted, discarded)
    ensures Kept(a + c, emitted, discarded + b)
  {
    SubsequenceCut(a, b, c, emitted);
  }

  /** Handled, then parked, then queued. */
  function Live(d: Driver): seq<Action> {
    Actions(d.handled) + ParkedList(d) + d.agent.actions
  }

  ghost predicate InOrder(d: Driver) {
    Kept(Live(d), d.emitted, d.discarded)
  }

  ghost predicate Inv(d: Driver) {
    d.active ==> !d.agent.closed && Bounded(d.agent) && Paced(d.agent) && InOrder(d)
  }

  lemma ActionsSnoc(handled: seq<Handled>, h: Handled)
    ensures Actions(handled + [h]) == Actions(handled) + [h.action]
  {
    assert (handled + [h])[..|handled|] == handled;
  }

  lemma DiscardInv(d: Driver, agent: Agent)
    requires Inv(d) && d.active && !agent.closed && Bounded(agent) && Paced(agent)
    requires agent == d.agent || agent.actions == []
    ensures Inv(Discard(d, agent))
  {
    hide Kept, Actions, Bounded, Paced;
    var h, p, q := Actions(d.handled), ParkedList(d), d.agent.actions;
    if agent == d.agent {
      KeptCut(h, p, q, d.emitted, d.discarded);
      assert p + [] == p && h + [] + q == h + q;
    } else {
      assert h + (p + q) + [] == h + p + q && h + [] + [] == h + [];
      KeptCut(h, p + q, [], d.emitted, d.discarded);
    }
  }

  lemma RefreshInv(d: Driver, t: Turn)
    requires Inv(d) && d.active && RefreshStep(d, t).Some?
    ensures Inv(RefreshStep(d, t).value) && RefreshStep(d, t).value.active
  {
    hide Kept, Actions;
    if t.now >= d.nextRefresh && t.refresh.Changed? {
      InputsBounded(d.agent, Ignored, t.refresh.interfaces, [], t.now);
      InputsPaced(d.agent, Ignored, t.refresh.interfaces, [], t.now);
      DiscardInv(d, SetInterfaces(d.agent, t.refresh.interfaces, t.now));
    }
  }

  lemma AddrInv(d: Driver, t: Turn)
    requires Inv(d) && d.active
    ensures Inv(AddrStep(d, t)) && AddrStep(d, t).active
  {
    hide Kept, Actions;
    if SetAddrs(d.agent, t.addrs, t.now).1 {
      InputsBounded(d.agent, Ignored, [], t.addrs, t.now);
      InputsPaced(d.agent, Ignored, [], t.addrs, t.now);
      DiscardInv(d, SetAddrs(d.agent, t.addrs, t.now).0);
    }
  }

  lemma RetryInv(d: Driver, t: Turn)
    requires Inv(d) && d.active
    ensures Inv(RetryStep(d, t).driver) && RetryStep(d, t).driver.active
    ensures !RetryStep(d, t).broken && !RetryStep(d, t).congested ==> RetryStep(d, t).driver.parked.None?
    ensures RetryStep(d, t).congested ==> RetryStep(d, t).driver == d
  {
    hide Bounded, Actions, Kept;
    if d.parked.Some? {
      var o := OutcomeAt(t.sends, 0);
      ActionsSnoc(d.handled, Handled(d.parked.value, o.Taken?));
      assert Actions(d.handled) + [d.parked.value] + [] == Actions(d.handled) + [d.parked.value];
    }
  }

  lemma {:induction false} ReceiveInv(a: Agent, received: seq<Heard>, now: nat)
    requires Bounded(a) && Paced(a) && !a.closed
    ensures Paced(ReceiveAll(a, received, now))
    ensures Bounded(ReceiveAll(a, received, now)) && !ReceiveAll(a, received, now).closed
    ensures ReceiveAll(a, received, now).actions == a.actions
  {
    if received != [] {
      var n := |received| - 1;
      ReceiveInv(a, received[..n], now);
      InputsBounded(ReceiveAll(a, received[..n], now), received[n], [], [], now);
      InputsPaced(ReceiveAll(a, received[..n], now), received[n], [], [], now);
    }
  }

  lemma AgentInv(d: Driver, t: Turn)
    requires Inv(d) && d.active
    ensures Inv(AgentStep(d, t)) && AgentStep(d, t).active && AgentStep(d, t).parked == d.parked
    ensures AgentStep(d, t).handled == d.handled && d.emitted <= AgentStep(d, t).emitted
    ensures AgentStep(d, t).discarded == d.discarded
  {
    hide HandleTick, ReceiveAll, Actions, Kept, Paced;
    ReceiveInv(d.agent, t.received, t.now);
    var b := ReceiveAll(d.agent, t.received, t.now);
    TickBounded(b, t.now);
    TickKeepsPace(b, t.now);
    var a := HandleTick(b, t.now);
    var more := a.actions[|d.agent.actions|..];
    assert a.actions == d.agent.actions + more;
    KeptExtend(Live(d), d.emitted, d.discarded, more);
    Assoc(Actions(d.handled) + ParkedList(d), d.agent.actions, more);
  }

  lemma Assoc<T>(a: seq<T>, b: seq<T>, c: seq<T>)
    ensures a + (b + c) == a + b + c
  {
  }

  /** One handled action leaves the queue for the history. */
  lemma PopInv(d: Driver, sent: bool)
    requires Inv(d) && d.active && d.parked.None? && d.agent.actions != []
    ensures var first := d.agent.actions[0];
            var popped := d.(agent := d.agent.(actions := d.agent.actions[1..]));
            && Inv(popped.(handled := popped.handled + [Handled(first, sent)]))
            && Inv(popped.(parked := Some(first)))
  {
    hide Actions, Kept;
    var first, rest := d.agent.actions[0], d.agent.actions[1..];
    ActionsSnoc(d.handled, Handled(first, sent));
    assert d.agent.actions == [first] + rest;
    Assoc(Actions(d.handled) + [], [first], rest);
    assert Actions(d.handled) + [] == Actions(d.handled);
    assert Actions(d.handled) + [first] + [] == Actions(d.handled) + [first];
  }

  lemma {:induction false} SendBatchInv(d: Driver, limit: nat, sends: seq<Outcome>, i: nat)
    requires Inv(d) && d.active && d.parked.None?
    ensures var r := SendBatch(d, limit, sends, i);
            && (!r.broken ==> Inv(r.driver) && r.driver.active)
            && (!r.broken && !r.backlog ==> r.driver.parked.None? && r.driver.agent.actions == [])
            && d.handled <= r.driver.handled && |r.driver.handled| <= |d.handled| + limit
            && r.driver.emitted == d.emitted && r.driver.discarded == d.discarded
            && r.driver.nextRefresh == d.nextRefresh && r.driver.agent.scheduled == d.agent.scheduled
    decreases limit
  {
    hide Inv, Actions;
    if d.agent.actions != [] {
      PopInv(d, OutcomeAt(sends, i).Taken?);
      if limit > 0 {
        var o := OutcomeAt(sends, i);
        if !o.Congested? && !o.Broken? {
          var popped := d.(agent := d.agent.(actions := d.agent.actions[1..]));
          SendBatchInv(popped.(handled := popped.handled + [Handled(d.agent.actions[0], o.Taken?)]), limit - 1, sends, i + 1);
        }
      }
    } else {
      assert d.(parked := None) == d;
    }
  }

  lemma BacklogInv(d: Driver, backlog: bool)
    requires Inv(d)
    ensures Inv(d.(backlog := backlog))
  {
    hide Kept;
  }

  lemma FailInv(d: Driver)
    ensures Inv(Fail(d))
  {
  }

  lemma TickInv(d: Driver, t: Turn)
    requires Inv(d)
    ensures Inv(Tick(d, t).0)
  {
    hide Inv, Fail, RefreshStep, AddrStep, RetryStep, AgentStep, SendBatch, Budget;
    forall x
      ensures Inv(Fail(x))
    {
      FailInv(x);
    }
    if d.active && t.pollIn && RefreshStep(d, t).Some? {
      RefreshInv(d, t);
      var d1 := RefreshStep(d, t).value;
      AddrInv(d1, t);
      var d2 := AddrStep(d1, t);
      RetryInv(d2, t);
      var try_ := RetryStep(d2, t);
      AgentInv(try_.driver, t);
      var d3 := AgentStep(try_.driver, t);
      BacklogInv(d3, true);
      if !try_.congested && !try_.broken {
        SendBatchInv(d3, Budget(d2, t), t.sends, try_.used);
        var r := SendBatch(d3, Budget(d2, t), t.sends, try_.used);
        if !r.broken {
          BacklogInv(r.driver, |t.received| >= MAX_PER_TICK || r.backlog);
        }
      }
    }
  }

  // ---- leftover work wakes the host ----

  predicate DueLeft(a: Agent, now: nat) {
    exists i | 0 <= i < |a.scheduled| :: a.scheduled[i].due <= now
  }

  lemma DueWakes(d: Driver, now: nat, carrier: Option<nat>)
    requires d.active && !d.agent.closed && DueLeft(d.agent, now)
    ensures NextTimeout(d, now, carrier) == Some(0)
  {
    var i :| 0 <= i < |d.agent.scheduled| && d.agent.scheduled[i].due <= now;
    var m := MinDue(d.agent.scheduled);
    assert m.value <= d.agent.scheduled[i].due;
    hide MinDue;
  }

  /** After a turn, anything parked, queued or overdue means the next turn is due at once. */
  lemma LeftoverWakes(d: Driver, t: Turn, carrier: Option<nat>)
    requires Inv(d) && Tick(d, t).1 && d.active
    ensures var d' := Tick(d, t).0;
            && d'.active
            && (d'.parked.Some? || d'.agent.actions != [] || DueLeft(d'.agent, t.now)
                ==> NextTimeout(d', t.now, carrier) == Some(0))
  {
    hide Inv, Fail, RefreshStep, AddrStep, RetryStep, AgentStep, SendBatch, Budget, DueLeft, NextTimeout;
    var d' := Tick(d, t).0;
    RefreshInv(d, t);
    var d1 := RefreshStep(d, t).value;
    AddrInv(d1, t);
    var d2 := AddrStep(d1, t);
    RetryInv(d2, t);
    var try_ := RetryStep(d2, t);
    AgentInv(try_.driver, t);
    var d3 := AgentStep(try_.driver, t);
    if !try_.congested {
      SendBatchInv(d3, Budget(d2, t), t.sends, try_.used);
    }
    TickInv(d, t);
    OpenWhileActive(d');
    if d'.backlog {
      BacklogWakes(d', t.now, carrier);
    }
    if DueLeft(d'.agent, t.now) {
      DueWakes(d', t.now, carrier);
    }
  }

  lemma OpenWhileActive(d: Driver)
    requires Inv(d) && d.active
    ensures !d.agent.closed
  {
  }

  lemma BacklogWakes(d: Driver, now: nat, carrier: Option<nat>)
    requires d.active && d.backlog
    ensures NextTimeout(d, now, carrier) == Some(0)
  {
  }

  // ---- across turns ----

  /** The turn brings no new snapshot. */
  predicate Steady(d: Driver, t: Turn) {
    (t.now >= d.nextRefresh ==> t.refresh.Unchanged?) && d.agent.addrs == t.addrs
  }

  /**
   While no snapshot changes nothing is discarded and the histories only grow, so every
   datagram leaves, in the order of emission across turns; a turn handles at most one datagram
   over its budget, and a parked datagram that is still refused room holds back everything
   behind it.
   */
  lemma SteadyTurnExtends(d: Driver, t: Turn)
    requires Inv(d) && d.active && Steady(d, t) && Tick(d, t).1
    ensures var d' := Tick(d, t).0;
            && d.handled <= d'.handled && d.emitted <= d'.emitted && d'.discarded == d.discarded
            && |d'.handled| <= |d.handled| + MAX_PER_TICK + 1
            && (d.parked.Some? && OutcomeAt(t.sends, 0).Congested? ==> d'.handled == d.handled && d'.parked == d.parked)
  {
    hide Inv, Fail, AgentStep, SendBatch, Actions;
    var d1 := RefreshStep(d, t).value;
    RefreshInv(d, t);
    assert d1 == d.(nextRefresh := d1.nextRefresh);
    var d2 := AddrStep(d1, t);
    AddrInv(d1, t);
    assert d2 == d1;
    RetryInv(d2, t);
    var try_ := RetryStep(d2, t);
    AgentInv(try_.driver, t);
    var d3 := AgentStep(try_.driver, t);
    if !try_.congested {
      SendBatchInv(d3, Budget(d2, t), t.sends, try_.used);
    }
  }

  /** A carrier that neither fills up nor breaks takes everything the budget allows. */
  lemma {:induction false} FreeCarrierDrains(d: Driver, limit: nat, sends: seq<Outcome>, i: nat)
    requires Inv(d) && d.active && d.parked.None?
    requires forall k | i <= k < |sends| :: !sends[k].Congested? && !sends[k].Broken?
    ensures var r := SendBatch(d, limit, sends, i);
            && |r.driver.handled| == |d.handled| + Min(limit, |d.agent.actions|)
            && r.backlog == (|d.agent.actions| > limit)
    decreases limit
  {
    hide Inv, Actions;
    if d.agent.actions != [] && limit > 0 {
      PopInv(d, OutcomeAt(sends, i).Taken?);
      var popped := d.(agent := d.agent.(actions := d.agent.actions[1..]));
      FreeCarrierDrains(popped.(handled := popped.handled + [Handled(d.agent.actions[0], OutcomeAt(sends, i).Taken?)]),
                        limit - 1, sends, i + 1);
    }
  }

  // ---- runs ----

  function Start(interval: nat, interfaces: seq<nat>, refreshEvery: nat, pollEvery: nat): Driver {
    Driver(SetInterfaces(New(interval), interfaces, 0), true, refreshEvery, refreshEvery, pollEvery, false, None, [], [], [])
  }

  function Run(d: Driver, turns: seq<Turn>): Driver {
    if turns == [] then d else Tick(Run(d, turns[..|turns| - 1]), turns[|turns| - 1]).0
  }

  /**
   In every run the open agent's queues are bounded, its queries keep their pace, and every datagram the agent ever emitted
   was handled, is parked, is queued, or was discarded with its snapshot; the first three, in
   this order, keep the order of emission.
   */
  lemma {:induction false} EveryRunInOrder(interval: nat, interfaces: seq<nat>, refreshEvery: nat, pollEvery: nat, turns: seq<Turn>)
    ensures var d := Run(Start(interval, interfaces, refreshEvery, pollEvery), turns);
            d.active ==>
              && !d.agent.closed && |d.agent.scheduled| <= MAX_SCHEDULED && |d.agent.actions| <= MAX_ACTIONS && Paced(d.agent)
              && Subsequence(Actions(d.handled) + ParkedList(d) + d.agent.actions, d.emitted)
              && multiset(d.emitted) ==
                 multiset(Actions(d.handled)) + multiset(ParkedList(d)) + multiset(d.agent.actions) + multiset(d.discarded)
  {
    StartInv(interval, interfaces, refreshEvery, pollEvery);
    RunInv(Start(interval, interfaces, refreshEvery, pollEvery), turns);
    hide Run, Actions, Subsequence;
  }

  /** After any run, a turn that leaves anything parked, queued or overdue makes the next turn due at once. */
  lemma EveryRunWakes(interval: nat, interfaces: seq<nat>, refreshEvery: nat, pollEvery: nat, turns: seq<Turn>, t: Turn, carrier: Option<nat>)
    requires var d := Run(Start(interval, interfaces, refreshEvery, pollEvery), turns); d.active && Tick(d, t).1
    ensures var d := Tick(Run(Start(interval, interfaces, refreshEvery, pollEvery), turns), t).0;
            && d.active
            && (d.parked.Some? || d.agent.actions != [] || DueLeft(d.agent, t.now) ==> NextTimeout(d, t.now, carrier) == Some(0))
  {
    hide Inv, Tick, NextTimeout, DueLeft;
    StartInv(interval, interfaces, refreshEvery, pollEvery);
    RunInv(Start(interval, interfaces, refreshEvery, pollEvery), turns);
    LeftoverWakes(Run(Start(interval, interfaces, refreshEvery, pollEvery), turns), t, carrier);
  }

  lemma StartInv(interval: nat, interfaces: seq<nat>, refreshEvery: nat, pollEvery: nat)
    ensures Inv(Start(interval, interfaces, refreshEvery, pollEvery))
  {
    assert Live(Start(interval, interfaces, refreshEvery, pollEvery)) == [];
  }

  lemma {:induction false} RunInv(d: Driver, turns: seq<Turn>)
    requires Inv(d)
    ensures Inv(Run(d, turns))
  {
    hide Inv, Tick;
    if turns != [] {
      RunInv(d, turns[..|turns| - 1]);
      TickInv(Run(d, turns[..|turns| - 1]), turns[|turns| - 1]);
    }
  }

  // ---- the driver, updated in place ----

  class MdnsDriver {
    var agent: Agent
    var active: bool
    var nextRefresh: nat
    const refreshEvery: nat
    const pollEvery: nat
    var backlog: bool
    var parked: Option<Action>
    ghost var handled: seq<Handled>
    ghost var emitted: seq<Action>
    ghost var discarded: seq<Action>

    ghost function State(): Driver
      reads this
    {
      Driver(agent, active, nextRefresh, refreshEvery, pollEvery, backlog, parked, handled, emitted, discarded)
    }

    constructor (interval: nat, interfaces: seq<nat>, refreshEvery: nat, pollEvery: nat)
      ensures State() == Start(interval, interfaces, refreshEvery, pollEvery)
    {
      agent := SetInterfaces(New(interval), interfaces, 0);
      active, nextRefresh, this.refreshEvery, this.pollEvery := true, refreshEvery, refreshEvery, pollEvery;
      backlog, parked, handled, emitted, discarded := false, None, [], [], [];
    }

    method Stop()
      modifies this
      ensures State() == Fail(old(State()))
    {
      parked, backlog, active := None, false, false;
      agent := Shutdown(agent, []).(actions := []);
    }

    method Snapshot(a: Agent)
      modifies this
      ensures State() == Discard(old(State()), a)
    {
      discarded := discarded + (ParkedList(State()) + if a == agent then [] else agent.actions);
      agent, parked := a, None;
    }

    /** Retries the parked datagram before anything else. */
    method Retry(t: Turn) returns (used: nat, sent: nat, congested: bool, broken: bool)
      modifies this
      ensures RetryStep(old(State()), t) == Try(State(), used, congested, broken)
      ensures sent == if old(parked).Some? && OutcomeAt(t.sends, 0).Taken? then 1 else 0
    {
      used, sent, congested, broken := 0, 0, false, false;
      if parked.Some? {
        var o := OutcomeAt(t.sends, 0);
        used := 1;
        if o.Congested? {
          congested := true;
        } else if o.Broken? {
          broken := true;
        } else {
          handled := handled + [Handled(parked.value, o.Taken?)];
          parked := None;
          sent := if o.Taken? then 1 else 0;
        }
      }
    }

    method Receive(received: seq<Heard>, now: nat)
      modifies this`agent
      ensures State() == old(State()).(agent := ReceiveAll(old(agent), received, now))
    {
      for i := 0 to |received|
        invariant agent == ReceiveAll(old(agent), received[..i], now)
      {
        assert received[..i + 1][..i] == received[..i];
        agent := Hear(agent, received[i], now);
      }
      assert received[..|received|] == received;
    }

    method SendUpTo(limit: nat, sends: seq<Outcome>, start: nat) returns (left: bool, broken: bool)
      modifies this
      ensures SendBatch(old(State()), limit, sends, start) == Sent(State(), left, broken)
    {
      var n := 0;
      while n < limit
        invariant 0 <= n <= limit
        invariant SendBatch(old(State()), limit, sends, start) == SendBatch(State(), limit - n, sends, start + n)
      {
        if agent.actions == [] {
          return false, false;
        }
        var first := agent.actions[0];
        agent := agent.(actions := agent.actions[1..]);
        var o := OutcomeAt(sends, start + n);
        if o.Congested? {
          parked := Some(first);
          return true, false;
        }
        if o.Broken? {
          return false, true;
        }
        handled := handled + [Handled(first, o.Taken?)];
        n := n + 1;
      }
      if agent.actions == [] {
        parked := None;
        return false, false;
      }
      parked := Some(agent.actions[0]);
      agent := agent.(actions := agent.actions[1..]);
      return true, false;
    }

    method Turn(t: Turn) returns (ok: bool)
      modifies this
      ensures (State(), ok) == Tick(old(State()), t)
    {
      hide SendBatch, RetryStep, ReceiveAll, HandleTick, Fail, Actions;
      if !active {
        return true;
      }
      if !t.pollIn {
        Stop();
        return false;
      }
      if t.now >= nextRefresh {
        if t.refresh.RefreshFailed? {
          Stop();
          return false;
        }
        if t.refresh.Changed? {
          Snapshot(SetInterfaces(agent, t.refresh.interfaces, t.now));
        }
        nextRefresh := SatAdd(t.now, refreshEvery);
      }
      assert RefreshStep(old(State()), t) == Some(State());
      var (next, changed) := SetAddrs(agent, t.addrs, t.now);
      if changed {
        Snapshot(next);
      }
      ok := Exchange(t);
    }

    /** The sending and receiving part of a turn. */
    method Exchange(t: Turn) returns (ok: bool)
      requires active
      modifies this
      ensures (State(), ok) == Exchanged(old(State()), t)
    {
      hide SendBatch, RetryStep, Fail, ReceiveAll, HandleTick;
      var used, sent, congested, broken := Retry(t);
      if broken || !t.receiveOk {
        Stop();
        return false;
      }
      ghost var before := |agent.actions|;
      Receive(t.received, t.now);
      agent := HandleTick(agent, t.now);
      emitted := emitted + agent.actions[Min(before, |agent.actions|)..];
      var left := true;
      if !congested {
        left, broken := SendUpTo(MAX_PER_TICK - sent, t.sends, used);
      }
      if broken || !t.pollOut {
        Stop();
        return false;
      }
      backlog := |t.received| >= MAX_PER_TICK || left;
      return true;
    }
  }
}
