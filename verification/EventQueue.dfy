/**
 Event delivery around the carry: ingestion, accounting, draining and cancellation
 (crates/ffi-core/src/driver.rs, crates/ffi-core/src/endpoint.rs).

 Each step is one region held under the endpoint's mutex.  The theorems hold over every run.
 */
module EventQueue {
  import opened Bytes
  import opened Carry

  datatype Stats = Stats(converted: nat, dispatched: nat, synthetic: nat, dropped: nat)

  datatype Overflow = Overflow(pending: nat, total: nat)

  datatype Queue = Queue(
    list: seq<Event>,
    overflow: Overflow,
    stats: Stats,
    connectIds: set<nat>,
    cancelled: set<nat>,
    droppedTerminal: set<nat>)

  const EMPTY := Queue([], Overflow(0, 0), Stats(0, 0, 0, 0), {}, {}, {})

  /** A 64-bit counter that stops at its maximum. */
  function Sat(n: nat): nat {
    if n > U64_MAX then U64_MAX else n
  }

  // ---- the steps ----

  function PushAll(l: seq<Event>, events: seq<Event>): seq<Event>
    decreases |events|
  {
    if events == [] then l else PushAll(PushList(l, events[0]), events[1..])
  }

  /** How many events the pushes drop. */
  function Drops(l: seq<Event>, events: seq<Event>): nat
    decreases |events|
  {
    if events == [] then 0
    else (if Dropped(l, events[0]).Some? then 1 else 0) + Drops(PushList(l, events[0]), events[1..])
  }

  /** The connection attempts whose final event the pushes drop. */
  function RetiredBy(l: seq<Event>, events: seq<Event>): set<nat>
    decreases |events|
  {
    if events == [] then {}
    else Retired(Dropped(l, events[0])) + RetiredBy(PushList(l, events[0]), events[1..])
  }

  /** `ingest`. */
  function Ingest(q: Queue, events: seq<Event>): Queue {
    var drops := Sat(Drops(q.list, events));
    q.(list := PushAll(q.list, events),
       droppedTerminal := q.droppedTerminal + RetiredBy(q.list, events),
       stats := q.stats.(converted := SatAdd(q.stats.converted, Sat(|events|)), dropped := SatAdd(q.stats.dropped, drops)),
       overflow := Overflow(SatAdd(q.overflow.pending, drops), SatAdd(q.overflow.total, drops)))
  }

  function DropCancelled(events: seq<Event>, cancelled: set<nat>): seq<Event> {
    Suppress(events, cancelled)
  }

  /** One iteration of `pump`: swarm events, NAT events of live attempts, then pubsub and discovery. */
  function Pump(q: Queue, swarm: seq<Event>, nat_: seq<Event>, rest: seq<Event>): Queue {
    var q := Ingest(Ingest(Ingest(q, swarm), DropCancelled(nat_, q.cancelled)), rest);
    q.(connectIds := q.connectIds - q.droppedTerminal, cancelled := {}, droppedTerminal := {})
  }

  /** A failing iteration keeps what it collected; `run` then reports the failure. */
  function Fail(q: Queue, swarm: seq<Event>, nat_: seq<Event>, failure: Event): Queue {
    Ingest(Ingest(Ingest(q, swarm), DropCancelled(nat_, q.cancelled)), [failure])
  }

  function TerminalIds(events: seq<Event>): set<nat> {
    set e | e in events && TerminalConnectId(e).Some? :: TerminalConnectId(e).value
  }

  datatype Drained = Drained(queue: Queue, events: seq<Event>, batch: seq<Event>)

  /** `drain_events`. */
  function Drain(q: Queue, limit: nat): Drained {
    if limit == 0 then Drained(q, [], [])
    else
      var kept := Suppress(q.list, q.cancelled);
      var diagnose := q.overflow.pending != 0;
      var n := Min(limit - (if diagnose then 1 else 0), |kept|);
      var batch := kept[..n];
      var note := if diagnose then [EventsDropped(q.overflow.pending, q.overflow.total)] else [];
      var stats := Stats(q.stats.converted, SatAdd(q.stats.dispatched, n),
                         if diagnose then SatAdd(q.stats.synthetic, 1) else q.stats.synthetic,
                         SatAdd(q.stats.dropped, |q.list| - |kept|));
      Drained(q.(list := kept[n..], overflow := q.overflow.(pending := 0), stats := stats,
                 connectIds := q.connectIds - TerminalIds(batch), cancelled := q.cancelled - TerminalIds(batch)),
              note + batch, batch)
  }

  /** `cancel_connect`: unknown ids change nothing. */
  function Cancel(q: Queue, id: nat): Queue {
    if id !in q.connectIds then q
    else
      var kept := Suppress(q.list, {id});
      q.(connectIds := q.connectIds - {id}, cancelled := q.cancelled + {id}, list := kept,
         stats := q.stats.(dropped := SatAdd(q.stats.dropped, |q.list| - |kept|)))
  }

  function Connect(q: Queue, id: nat): Queue {
    q.(connectIds := q.connectIds + {id})
  }

  // ---- runs ----

  datatype Op =
    | PumpOp(swarm: seq<Event>, nat_: seq<Event>, rest: seq<Event>)
    | FailOp(swarm: seq<Event>, nat_: seq<Event>, failure: Event)
    | DrainOp(limit: nat)
    | CancelOp(id: nat)
    | ConnectOp(id: nat)

  /** The drops that the diagnostic in front of a drained batch tells the consumer about. */
  function DropsTold(d: Drained): nat {
    if |d.events| > |d.batch| && d.events[0].EventsDropped? then d.events[0].dropped else 0
  }

  /** The queue with everything that ever arrived, everything delivered, and all drops reported. */
  datatype World = World(q: Queue, arrivals: seq<Event>, delivered: seq<Event>, reported: nat)

  function Step(w: World, op: Op): World {
    match op
    case PumpOp(swarm, nat_, rest) =>
      w.(q := Pump(w.q, swarm, nat_, rest),
         arrivals := w.arrivals + (swarm + DropCancelled(nat_, w.q.cancelled) + rest))
    case FailOp(swarm, nat_, failure) =>
      w.(q := Fail(w.q, swarm, nat_, failure),
         arrivals := w.arrivals + (swarm + DropCancelled(nat_, w.q.cancelled) + [failure]))
    case DrainOp(limit) =>
      var d := Drain(w.q, limit);
      w.(q := d.queue, delivered := w.delivered + d.batch, reported := w.reported + DropsTold(d))
    case CancelOp(id) => w.(q := Cancel(w.q, id))
    case ConnectOp(id) => w.(q := Connect(w.q, id))
  }

  function Run(w: World, ops: seq<Op>): World
    decreases |ops|
  {
    if ops == [] then w else Run(Step(w, ops[0]), ops[1..])
  }

  const START := World(EMPTY, [], [], 0)

  // ---- order ----

  /** `a` is what remains of `b` after deleting some elements. */
  predicate Subsequence(a: seq<Event>, b: seq<Event>)
    decreases |b|
  {
    if a == [] then true
    else if b == [] then false
    else if a[|a| - 1] == b[|b| - 1] && Subsequence(a[..|a| - 1], b[..|b| - 1]) then true
    else Subsequence(a, b[..|b| - 1])
  }

  lemma {:induction false} SubAppend(a: seq<Event>, b: seq<Event>, e: Event)
    requires Subsequence(a, b)
    ensures Subsequence(a + [e], b + [e]) && Subsequence(a, b + [e])
  {
    assert (a + [e])[..|a|] == a && (b + [e])[..|b|] == b;
  }

  lemma {:induction false} SubTrans(a: seq<Event>, b: seq<Event>, c: seq<Event>)
    requires Subsequence(a, b) && Subsequence(b, c)
    ensures Subsequence(a, c)
    decreases |b| + |c|
  {
    if a != [] {
      var b', c' := b[..|b| - 1], c[..|c| - 1];
      if b[|b| - 1] == c[|c| - 1] && Subsequence(b', c') {
        if a[|a| - 1] == b[|b| - 1] && Subsequence(a[..|a| - 1], b') {
          SubTrans(a[..|a| - 1], b', c');
        } else {
          SubTrans(a, b', c');
        }
      } else {
        SubTrans(a, b, c');
      }
    }
  }

  lemma {:induction false} SubRefl(a: seq<Event>)
    ensures Subsequence(a, a)
  {
    if a != [] {
      SubRefl(a[..|a| - 1]);
    }
  }

  lemma {:induction false} SubAppendAll(a: seq<Event>, b: seq<Event>, c: seq<Event>)
    requires Subsequence(a, b)
    ensures Subsequence(a + c, b + c)
    decreases |c|
  {
    if c == [] {
      assert a + c == a && b + c == b;
    } else {
      var init, last := c[..|c| - 1], c[|c| - 1];
      SubAppendAll(a, b, init);
      SubAppend(a + init, b + init, last);
      assert a + c == (a + init) + [last] && b + c == (b + init) + [last];
    }
  }

  lemma {:induction false} SubPrepend(d: seq<Event>, a: seq<Event>, b: seq<Event>)
    requires Subsequence(a, b)
    ensures Subsequence(d + a, d + b)
    decreases |b|
  {
    if a == [] {
      assert d + a == d;
      SubPrefix(d, b);
    } else {
      var b', last := b[..|b| - 1], b[|b| - 1];
      assert d + b == (d + b') + [last];
      if a[|a| - 1] == last && Subsequence(a[..|a| - 1], b') {
        SubPrepend(d, a[..|a| - 1], b');
        SubAppend(d + a[..|a| - 1], d + b', last);
        assert d + a == (d + a[..|a| - 1]) + [last];
      } else {
        SubPrepend(d, a, b');
        SubAppend(d + a, d + b', last);
      }
    }
  }

  lemma {:induction false} SubPrefix(d: seq<Event>, b: seq<Event>)
    ensures Subsequence(d, d + b)
    decreases |b|
  {
    hide Subsequence;
    if b == [] {
      assert d + b == d;
      SubRefl(d);
    } else {
      SubPrefix(d, b[..|b| - 1]);
      SubAppend(d, d + b[..|b| - 1], b[|b| - 1]);
      assert d + b == (d + b[..|b| - 1]) + [b[|b| - 1]];
    }
  }

  lemma SubWithout(l: seq<Event>, i: nat)
    requires i < |l|
    ensures Subsequence(Without(l, i), l)
  {
    SubRefl(l[..i]);
    SubAppend(l[..i], l[..i], l[i]);
    SubAppendAll(l[..i], l[..i] + [l[i]], l[i + 1..]);
    assert l == l[..i] + [l[i]] + l[i + 1..];
  }

  lemma SuppressUnfold(l: seq<Event>, cancelled: set<nat>)
    requires l != []
    ensures var before, last := Suppress(l[..|l| - 1], cancelled), l[|l| - 1];
            Suppress(l, cancelled) == if Keeps(last, cancelled) then before + [last] else before
  {
    hide Keeps;
  }

  lemma {:induction false} SubSuppress(l: seq<Event>, cancelled: set<nat>)
    ensures Subsequence(Suppress(l, cancelled), l)
  {
    hide Subsequence, Keeps, Suppress;
    if l == [] {
      SuppressNothing(cancelled);
    } else {
      var init, last := l[..|l| - 1], l[|l| - 1];
      SuppressUnfold(l, cancelled);
      SubSuppress(init, cancelled);
      SubAppend(Suppress(init, cancelled), init, last);
      assert l == init + [last];
    }
  }

  lemma SuppressNothing(cancelled: set<nat>)
    ensures Subsequence(Suppress([], cancelled), [])
  {
  }

  lemma PushSub(l: seq<Event>, e: Event)
    ensures Subsequence(PushList(l, e), l + [e])
    ensures |PushList(l, e)| == if |l| < MAX_CARRY then |l| + 1 else |l|
    ensures Dropped(l, e).Some? <==> |l| >= MAX_CARRY
  {
    SubRefl(l + [e]);
    if |l| >= MAX_CARRY {
      SubWithout(l + [e], Victim(l + [e]));
    }
  }

  /** Pushing keeps arrival order, keeps the cap, and drops exactly what does not fit. */
  lemma {:induction false} PushAllFacts(l: seq<Event>, events: seq<Event>)
    requires |l| <= MAX_CARRY
    ensures Subsequence(PushAll(l, events), l + events)
    ensures |PushAll(l, events)| <= MAX_CARRY
    ensures |l| + |events| == |PushAll(l, events)| + Drops(l, events)
    decreases |events|
  {
    hide Subsequence, PushList, Dropped;
    if events == [] {
      assert l + events == l;
      SubRefl(l);
    } else {
      var l' := PushList(l, events[0]);
      PushSub(l, events[0]);
      PushAllFacts(l', events[1..]);
      SubAppendAll(l', l + [events[0]], events[1..]);
      assert l + events == (l + [events[0]]) + events[1..];
      SubTrans(PushAll(l', events[1..]), l' + events[1..], l + events);
    }
  }

  // ---- the invariant of every run ----

  /** What the counters say, as long as no 64-bit counter can have stopped. */
  predicate Accounts(w: World) {
    && w.q.stats.converted == |w.arrivals|
    && w.q.stats.converted == w.q.stats.dispatched + w.q.stats.dropped + |w.q.list|
    && w.q.stats.dispatched == |w.delivered|
    && w.reported + w.q.overflow.pending == w.q.overflow.total <= w.q.stats.dropped
  }

  predicate Inv(w: World) {
    && |w.q.list| <= MAX_CARRY
    && Subsequence(w.delivered + w.q.list, w.arrivals)
    && (|w.arrivals| <= U64_MAX ==> Accounts(w))
  }

  lemma IngestInv(w: World, events: seq<Event>)
    requires Inv(w)
    ensures Inv(w.(q := Ingest(w.q, events), arrivals := w.arrivals + events))
  {
    hide Subsequence, PushAll, Drops, RetiredBy;
    var l := PushAll(w.q.list, events);
    PushAllFacts(w.q.list, events);
    SubAppendAll(w.delivered + w.q.list, w.arrivals, events);
    SubPrepend(w.delivered, l, w.q.list + events);
    assert w.delivered + (w.q.list + events) == (w.delivered + w.q.list) + events;
    SubTrans(w.delivered + l, (w.delivered + w.q.list) + events, w.arrivals + events);
  }

  lemma PumpInv(w: World, swarm: seq<Event>, nat_: seq<Event>, rest: seq<Event>)
    requires Inv(w)
    ensures Inv(Step(w, PumpOp(swarm, nat_, rest)))
    ensures |rest| == 1 ==> Inv(Step(w, FailOp(swarm, nat_, rest[0])))
  {
    hide Ingest, Subsequence, DropCancelled;
    var live := DropCancelled(nat_, w.q.cancelled);
    IngestCancelled(w.q, swarm);
    var a := w.(q := Ingest(w.q, swarm), arrivals := w.arrivals + swarm);
    IngestInv(w, swarm);
    var b := a.(q := Ingest(a.q, live), arrivals := a.arrivals + live);
    IngestInv(a, live);
    IngestInv(b, rest);
    assert b.arrivals + rest == w.arrivals + (swarm + live + rest);
    if |rest| == 1 {
      assert rest == [rest[0]];
    }
  }

  lemma IngestCancelled(q: Queue, events: seq<Event>)
    ensures Ingest(q, events).cancelled == q.cancelled
  {
  }

  lemma SuppressInv(w: World, cancelled: set<nat>)
    requires Inv(w)
    ensures var kept := Suppress(w.q.list, cancelled);
            Inv(w.(q := w.q.(list := kept,
                             stats := w.q.stats.(dropped := SatAdd(w.q.stats.dropped, |w.q.list| - |kept|)))))
  {
    var kept := Suppress(w.q.list, cancelled);
    SubSuppress(w.q.list, cancelled);
    SubPrepend(w.delivered, kept, w.q.list);
    SubTrans(w.delivered + kept, w.delivered + w.q.list, w.arrivals);
  }

  lemma DrainInv(w: World, limit: nat)
    requires Inv(w)
    ensures Inv(Step(w, DrainOp(limit)))
  {
    hide Subsequence, Suppress, TerminalIds;
    if limit > 0 {
      SuppressInv(w, w.q.cancelled);
      var kept := Suppress(w.q.list, w.q.cancelled);
      var d := Drain(w.q, limit);
      assert kept == d.batch + d.queue.list;
      assert (w.delivered + d.batch) + d.queue.list == w.delivered + kept;
    } else {
      assert w.delivered + [] == w.delivered;
    }
  }

  lemma StepInv(w: World, op: Op)
    requires Inv(w)
    ensures Inv(Step(w, op))
  {
    match op
    case PumpOp(swarm, nat_, rest) => PumpInv(w, swarm, nat_, rest);
    case FailOp(swarm, nat_, failure) => PumpInv(w, swarm, nat_, [failure]);
    case DrainOp(limit) => DrainInv(w, limit);
    case CancelOp(id) => SuppressInv(w, {id});
    case ConnectOp(id) =>
  }

  lemma {:induction false} RunInv(w: World, ops: seq<Op>)
    requires Inv(w)
    ensures Inv(Run(w, ops))
    decreases |ops|
  {
    hide Step, Inv;
    if ops != [] {
      StepInv(w, ops[0]);
      RunInv(Step(w, ops[0]), ops[1..]);
    }
  }

  /**
   In every run the carry stays within its cap, what was and will be delivered is in
   arrival order, and every event is counted once as delivered, dropped or still queued.
   */
  lemma QueueIsBoundedOrderedAndAccounted(ops: seq<Op>)
    ensures var w := Run(START, ops);
            && |w.q.list| <= MAX_CARRY
            && Subsequence(w.delivered + w.q.list, w.arrivals)
            && (|w.arrivals| <= U64_MAX ==> Accounts(w))
  {
    assert START.delivered + START.q.list == [];
    RunInv(START, ops);
  }

  /** A diagnostic tells every drop since the last one, and the running total of all told so far. */
  lemma DiagnosticIsCumulative(w: World, limit: nat)
    requires Inv(w) && |w.arrivals| <= U64_MAX && limit > 0 && w.q.overflow.pending > 0
    ensures var w' := Step(w, DrainOp(limit));
            && w'.reported > w.reported
            && Drain(w.q, limit).events[0] == EventsDropped(w'.reported - w.reported, w'.reported)
            && w'.q.overflow.pending == 0
  {
    hide Subsequence, Suppress;
  }

  // ---- draining to the end ----

  /** A drain that returns nothing has emptied the carry. */
  lemma EmptyDrainMeansEmpty(q: Queue, limit: nat)
    requires limit > 0
    ensures Drain(q, limit).events == [] ==> Drain(q, limit).queue.list == []
    ensures Drain(q, limit).events == [] <==> Suppress(q.list, q.cancelled) == [] && q.overflow.pending == 0
  {
  }

  // ---- cancellation ----

  predicate Silent(l: seq<Event>, id: nat) {
    forall e | e in l :: ConnectIdOf(e) != Some(id)
  }

  lemma SuppressSilent(l: seq<Event>, cancelled: set<nat>, id: nat)
    requires id in cancelled || Silent(l, id)
    ensures Silent(Suppress(l, cancelled), id)
  {
  }

  lemma {:induction false} PushAllSilent(l: seq<Event>, events: seq<Event>, id: nat)
    requires Silent(l, id) && Silent(events, id)
    ensures Silent(PushAll(l, events), id)
    decreases |events|
  {
    if events != [] {
      PushListSilent(l, events[0], id);
      hide PushList;
      PushAllSilent(PushList(l, events[0]), events[1..], id);
    }
  }

  lemma PushListSilent(l: seq<Event>, e: Event, id: nat)
    requires Silent(l, id) && ConnectIdOf(e) != Some(id)
    ensures Silent(PushList(l, e), id)
  {
    hide Victim;
  }

  /** Nothing queued for the attempt, and, until the next pump, nothing of it is let in. */
  predicate Quiet(q: Queue, id: nat, guarded: bool) {
    Silent(q.list, id) && id !in q.connectIds && (guarded ==> id in q.cancelled)
  }

  /** Everything delivered by a run. */
  function Output(q: Queue, ops: seq<Op>): seq<Event>
    decreases |ops|
  {
    if ops == [] then []
    else
      match ops[0]
      case PumpOp(swarm, nat_, rest) => Output(Pump(q, swarm, nat_, rest), ops[1..])
      case FailOp(swarm, nat_, failure) => Output(Fail(q, swarm, nat_, failure), ops[1..])
      case DrainOp(limit) => Drain(q, limit).batch + Output(Drain(q, limit).queue, ops[1..])
      case CancelOp(id) => Output(Cancel(q, id), ops[1..])
      case ConnectOp(id) => Output(Connect(q, id), ops[1..])
  }

  predicate Reuses(op: Op, id: nat) {
    op == ConnectOp(id)
  }

  function Pumps(ops: seq<Op>): nat {
    if ops == [] then 0 else (if ops[0].PumpOp? || ops[0].FailOp? then 1 else 0) + Pumps(ops[1..])
  }

  /** Only NAT events carry an attempt's id. */
  predicate WellFormed(op: Op) {
    && (op.PumpOp? ==> forall e | e in op.swarm + op.rest :: ConnectIdOf(e).None?)
    && (op.FailOp? ==> forall e | e in op.swarm + [op.failure] :: ConnectIdOf(e).None?)
  }

  lemma {:induction false} StaysQuiet(q: Queue, ops: seq<Op>, id: nat, guarded: bool)
    requires Quiet(q, id, guarded) && Pumps(ops) <= (if guarded then 1 else 0)
    requires forall op | op in ops :: WellFormed(op) && !Reuses(op, id)
    ensures Silent(Output(q, ops), id)
    decreases |ops|
  {
    if ops != [] {
      var op, later := ops[0], ops[1..];
      assert WellFormed(op) && !Reuses(op, id);
      match op
      case PumpOp(swarm, nat_, rest) =>
        PumpQuiet(q, swarm, nat_, rest, id);
        StaysQuiet(Pump(q, swarm, nat_, rest), later, id, false);
      case FailOp(swarm, nat_, failure) =>
        PumpQuiet(q, swarm, nat_, [failure], id);
        StaysQuiet(Fail(q, swarm, nat_, failure), later, id, false);
      case DrainOp(limit) =>
        DrainQuiet(q, limit, id, guarded);
        StaysQuiet(Drain(q, limit).queue, later, id, guarded);
      case CancelOp(other) =>
        CancelQuiet(q, other, id, guarded);
        StaysQuiet(Cancel(q, other), later, id, guarded);
      case ConnectOp(other) =>
        StaysQuiet(Connect(q, other), later, id, guarded);
    }
  }

  lemma PumpQuiet(q: Queue, swarm: seq<Event>, nat_: seq<Event>, rest: seq<Event>, id: nat)
    requires Quiet(q, id, true) && forall e | e in swarm + rest :: ConnectIdOf(e).None?
    ensures Quiet(Pump(q, swarm, nat_, rest), id, false)
    ensures |rest| == 1 ==> Quiet(Fail(q, swarm, nat_, rest[0]), id, false)
  {
    hide PushAll, Drops, RetiredBy, SatAdd, Sat;
    var live := DropCancelled(nat_, q.cancelled);
    SuppressSilent(nat_, q.cancelled, id);
    if |rest| == 1 {
      assert rest == [rest[0]];
    }
    assert forall e | e in swarm :: e in swarm + rest;
    assert forall e | e in rest :: e in swarm + rest;
    PushAllSilent(q.list, swarm, id);
    PushAllSilent(PushAll(q.list, swarm), live, id);
    PushAllSilent(PushAll(PushAll(q.list, swarm), live), rest, id);
  }

  lemma DrainQuiet(q: Queue, limit: nat, id: nat, guarded: bool)
    requires Quiet(q, id, guarded)
    ensures Silent(Drain(q, limit).batch, id) && Quiet(Drain(q, limit).queue, id, guarded)
  {
    if limit > 0 {
      SuppressSilent(q.list, q.cancelled, id);
      var kept, d := Suppress(q.list, q.cancelled), Drain(q, limit);
      assert forall e | e in d.batch :: e in kept;
      assert forall e | e in d.queue.list :: e in kept;
      forall e | e in d.batch && TerminalConnectId(e).Some?
        ensures TerminalConnectId(e).value != id
      {
        assert ConnectIdOf(e) == TerminalConnectId(e);
      }
    }
  }

  lemma CancelQuiet(q: Queue, other: nat, id: nat, guarded: bool)
    requires Quiet(q, id, guarded)
    ensures Quiet(Cancel(q, other), id, guarded)
  {
    SuppressSilent(q.list, {other}, id);
  }

  /**
   After a live attempt is cancelled none of its events is delivered, whatever was queued and
   whatever the next pump collects, as long as its id is not connected again.
   */
  lemma CancelSilences(q: Queue, id: nat, ops: seq<Op>)
    requires id in q.connectIds && Pumps(ops) <= 1
    requires forall op | op in ops :: WellFormed(op) && !Reuses(op, id)
    ensures Silent(Output(Cancel(q, id), ops), id)
  {
    SuppressSilent(q.list, {id}, id);
    StaysQuiet(Cancel(q, id), ops, id, true);
  }
}
