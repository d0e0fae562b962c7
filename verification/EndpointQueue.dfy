/**
 The endpoint state that the driver, the drains and the commands update under the mutex
 (crates/ffi-core/src/driver.rs, crates/ffi-core/src/endpoint.rs), refining `EventQueue`.
 */
module EndpointQueue {
  import opened Bytes
  import opened C = Carry
  import Q = EventQueue

  // ---- a batch of pushes ----

  ghost function StoreAll(s: Store, events: seq<Event>): Store
    decreases |events|
  {
    if events == [] then s else StoreAll(PushStore(s, events[0]), events[1..])
  }

  /** How many of the pushes found the carry over its cap. */
  ghost function StoreDrops(s: Store, events: seq<Event>): nat
    decreases |events|
  {
    if events == [] then 0
    else (if |Insert(s, events[0]).events| > MAX_CARRY then 1 else 0) + StoreDrops(PushStore(s, events[0]), events[1..])
  }

  /** The next `n` pushes list their events in arrival order. */
  ghost predicate InOrder(s: Store, n: nat) {
    Indexed(s) && (n == 0 || (Below(s.events, s.nextId) && s.nextId + n <= WRAP))
  }

  lemma PushStaysInOrder(s: Store, e: Event, n: nat)
    requires Keyed(s) && InOrder(s, n + 1)
    ensures InOrder(PushStore(s, e), n)
  {
    hide Indexed, DropFront, Retired;
    assert s.nextId !in s.events;
    PushIndexed(s, e);
    if n > 0 {
      NextIdCases(s.nextId);
      PushKeys(s, e);
    }
  }

  lemma PushKeys(s: Store, e: Event)
    ensures PushStore(s, e).events.Keys <= s.events.Keys + {s.nextId}
    ensures PushStore(s, e).nextId == NextId(s.nextId)
  {
    hide Retired, NextId;
  }

  lemma PushStaysSpaced(s: Store, e: Event, n: nat)
    requires Keyed(s) && Spaced(s.events, s.nextId, n + 1)
    ensures s.nextId !in s.events && Spaced(PushStore(s, e).events, PushStore(s, e).nextId, n)
  {
    hide PushStore, NextId;
    PushKeys(s, e);
    NextIdCases(s.nextId);
    assert Distance(s.nextId, s.nextId) == 0;
    var t := PushStore(s, e);
    forall k | k in t.events
      ensures Distance(k, t.nextId) >= n
    {
      if k != s.nextId {
        assert k in s.events && k < WRAP;
        assert Distance(k, s.nextId) >= n + 1;
      }
    }
  }

  /** As long as the numbers last, the carry does what the list does. */
  lemma {:induction false} AllInOrder(s: Store, events: seq<Event>, room: nat)
    requires Keyed(s) && InOrder(s, |events| + room)
    ensures Keyed(StoreAll(s, events)) && InOrder(StoreAll(s, events), room)
    ensures ListOf(StoreAll(s, events)) == Q.PushAll(ListOf(s), events)
    ensures StoreDrops(s, events) == Q.Drops(ListOf(s), events)
    ensures StoreAll(s, events).droppedTerminal == s.droppedTerminal + Q.RetiredBy(ListOf(s), events)
    decreases |events|
  {
    hide PushStore, Insert, Keyed, Indexed, ListOf, PushList, Dropped, Retired;
    if events != [] {
      var e := events[0];
      PushKeyed(s, e);
      PushInOrder(s, e);
      PushStaysInOrder(s, e, |events| - 1 + room);
      AllInOrder(PushStore(s, e), events[1..], room);
    }
  }

  /** With every number unused, wrapped or not, each event is queued or counted as dropped. */
  lemma {:induction false} AllCounted(s: Store, events: seq<Event>)
    requires Keyed(s) && Indexed(s) && Spaced(s.events, s.nextId, |events|)
    ensures Indexed(StoreAll(s, events))
    ensures |ListOf(StoreAll(s, events))| + StoreDrops(s, events) == |ListOf(s)| + |events|
    decreases |events|
  {
    hide PushStore, Insert, Keyed, Indexed, ListOf, Spaced;
    if events != [] {
      var e := events[0];
      PushKeyed(s, e);
      PushStaysSpaced(s, e, |events| - 1);
      PushIndexed(s, e);
      ListSize(s);
      ListSize(PushStore(s, e));
      IndexedSize(s);
      AllCounted(PushStore(s, e), events[1..]);
    }
  }

  lemma TerminalIdsSnoc(done: seq<Event>, e: Event)
    ensures Q.TerminalIds(done + [e]) == Q.TerminalIds(done) + Retired(Some(e))
  {
    hide TerminalConnectId;
    assert forall x | x in done + [e] :: x in done || x == e;
    assert e in done + [e] && forall x | x in done :: x in done + [e];
  }

  class EndpointQueue {
    const carry: C.Carry
    var overflow: Q.Overflow
    var stats: Q.Stats
    var connectIds: set<nat>
    var cancelled: set<nat>

    /** The width of the arrival numbers; nothing else is asked of a queue. */
    ghost predicate Valid()
      reads this, carry
    {
      carry.Valid()
    }

    /** The next `n` events are queued in arrival order. */
    ghost predicate Orderly(n: nat)
      reads this, carry
    {
      InOrder(carry.State(), n)
    }

    ghost function State(): Q.Queue
      reads this, carry
    {
      Q.Queue(carry.List(), overflow, stats, connectIds, cancelled, carry.droppedTerminal)
    }

    constructor ()
      ensures Valid() && Orderly(WRAP) && State() == Q.EMPTY && fresh(carry)
    {
      carry := new C.Carry();
      overflow, stats, connectIds, cancelled := Q.Overflow(0, 0), Q.Stats(0, 0, 0, 0), {}, {};
      new;
      EmptiedIsInOrder(carry.State());
    }

    /**
     Pushes the events and adds up what the cap dropped.  While the arrival numbers last this is
     the specified queue; with unused numbers the counters are right even after a wrap.
     */
    method Ingest(events: seq<Event>, ghost room: nat)
      requires Valid()
      modifies this, carry
      ensures Valid() && carry.State() == StoreAll(old(carry.State()), events)
      ensures connectIds == old(connectIds) && cancelled == old(cancelled)
      ensures stats.converted == SatAdd(old(stats.converted), Q.Sat(|events|))
      ensures old(Orderly(|events| + room)) ==> Orderly(room) && State() == Q.Ingest(old(State()), events)
      ensures old(Indexed(carry.State()) && Spaced(carry.events, carry.nextId, |events|)) ==>
                && Indexed(carry.State())
                && old(|carry.List()|) + |events| >= |carry.List()|
                && stats.dropped == SatAdd(old(stats.dropped), Q.Sat(old(|carry.List()|) + |events| - |carry.List()|))
    {
      hide StoreAll, StoreDrops, Keyed, Indexed, ListOf, InOrder, Spaced, Q.Sat, SatAdd, C.Listing, Q.PushAll, Q.Drops, Q.RetiredBy;
      ghost var s := carry.State();
      ListIs(carry);
      var converted, dropped := PushEvents(events);
      ListIs(carry);
      if InOrder(s, |events| + room) {
        AllInOrder(s, events, room);
      }
      if Indexed(s) && Spaced(s.events, s.nextId, |events|) {
        AllCounted(s, events);
      }
      stats := stats.(converted := SatAdd(stats.converted, converted), dropped := SatAdd(stats.dropped, dropped));
      overflow := Q.Overflow(SatAdd(overflow.pending, dropped), SatAdd(overflow.total, dropped));
    }

    /** The loop of `ingest`, with its saturating counters. */
    method PushEvents(events: seq<Event>) returns (converted: nat, dropped: nat)
      requires carry.Valid()
      modifies carry
      ensures carry.Valid() && carry.State() == StoreAll(old(carry.State()), events)
      ensures converted == Q.Sat(|events|) && dropped == Q.Sat(StoreDrops(old(carry.State()), events))
    {
      hide PushStore, Insert, Keyed, Indexed, ListOf, C.Listing, Below, Q.Sat, SatAdd;
      SatZero();
      ghost var s := carry.State();
      converted, dropped := 0, 0;
      ghost var drops := 0;
      var i := 0;
      while i < |events|
        invariant 0 <= i <= |events| && carry.Valid()
        invariant StoreAll(carry.State(), events[i..]) == StoreAll(s, events)
        invariant drops + StoreDrops(carry.State(), events[i..]) == StoreDrops(s, events)
        invariant converted == Q.Sat(i) && dropped == Q.Sat(drops)
      {
        assert events[i..][1..] == events[i + 1..];
        SatStep(i);
        SatStep(drops);
        converted := SatAdd(converted, 1);
        var gone := carry.Push(events[i]);
        dropped := SatAdd(dropped, if gone then 1 else 0);
        drops := drops + if gone then 1 else 0;
        i := i + 1;
      }
    }

    /** What one loop of `pump` does with the events it collected. */
    method Pump(swarm: seq<Event>, nat_: seq<Event>, rest: seq<Event>, ghost room: nat)
      requires Valid()
      modifies this, carry
      ensures Valid() && carry.droppedTerminal == {} && cancelled == {}
      ensures carry.State().(droppedTerminal := {}) ==
              StoreAll(StoreAll(StoreAll(old(carry.State()), swarm), C.Suppress(nat_, old(cancelled))), rest).(droppedTerminal := {})
      ensures var n := |swarm| + |C.Suppress(nat_, old(cancelled))| + |rest|;
              old(Orderly(n + room)) ==> Orderly(room) && State() == Q.Pump(old(State()), swarm, nat_, rest)
    {
      hide Q.Ingest, C.Suppress, InOrder, StoreAll, Keyed, Indexed, Spaced, C.Listing, Q.Sat, SatAdd;
      Q.IngestCancelled(State(), swarm);
      var live := C.Suppress(nat_, cancelled);
      Ingest(swarm, |live| + |rest| + room);
      Ingest(live, |rest| + room);
      Ingest(rest, room);
      ghost var s := carry.State();
      var ids := carry.TakeDroppedTerminal();
      OrderIgnoresRetired(s, room);
      connectIds, cancelled := connectIds - ids, {};
    }

    method DrainEvents(limit: nat, ghost room: nat) returns (events: seq<Event>)
      requires Valid()
      modifies this, carry
      ensures Valid() && State() == Q.Drain(old(State()), limit).queue
      ensures events == Q.Drain(old(State()), limit).events
      ensures old(Orderly(room)) ==> Orderly(room)
    {
      hide C.Listing, Indexed, C.Suppress, Keyed, InOrder, SatAdd, Q.TerminalIds;
      if limit == 0 {
        return [];
      }
      ghost var s := carry.State();
      var suppressed := carry.SuppressCancelled(cancelled);
      stats := stats.(dropped := SatAdd(stats.dropped, suppressed));
      var note, batch := TakeDelivery(limit);
      FewerInOrder(s, carry.State(), room);
      events := note;
      RetireTerminal(batch);
      stats := stats.(dispatched := SatAdd(stats.dispatched, |batch|));
      events := events + batch;
    }

    /** `take_delivery`: a pending diagnostic takes the first slot, the oldest events the rest. */
    method TakeDelivery(limit: nat) returns (note: seq<Event>, batch: seq<Event>)
      requires carry.Valid() && limit > 0
      modifies this`overflow, this`stats, carry`events, carry`payloadIds
      ensures carry.Valid() && carry.events.Keys <= old(carry.events).Keys
      ensures old(Indexed(carry.State())) ==> Indexed(carry.State())
      ensures note == if old(overflow.pending) == 0 then [] else [EventsDropped(old(overflow.pending), old(overflow.total))]
      ensures batch == old(carry.List())[..Min(limit - |note|, |old(carry.List())|)]
      ensures carry.List() == old(carry.List())[|batch|..]
      ensures overflow == old(overflow).(pending := 0)
      ensures stats == if note == [] then old(stats) else old(stats).(synthetic := SatAdd(old(stats.synthetic), 1))
    {
      hide C.Listing, Indexed, Keyed, SatAdd;
      note := TakeNote();
      batch := carry.Take(limit - |note|);
    }

    /** The diagnostic about events dropped since the last one. */
    method TakeNote() returns (note: seq<Event>)
      modifies this`overflow, this`stats
      ensures |note| <= 1
      ensures note == if old(overflow.pending) == 0 then [] else [EventsDropped(old(overflow.pending), old(overflow.total))]
      ensures overflow == old(overflow).(pending := 0)
      ensures stats == if note == [] then old(stats) else old(stats).(synthetic := SatAdd(old(stats.synthetic), 1))
    {
      note := [];
      if overflow.pending != 0 {
        note := [EventsDropped(overflow.pending, overflow.total)];
        overflow := overflow.(pending := 0);
        stats := stats.(synthetic := SatAdd(stats.synthetic, 1));
      }
    }

    /** Forgets the attempts that a delivered batch ends. */
    method RetireTerminal(batch: seq<Event>)
      modifies this`connectIds, this`cancelled
      ensures connectIds == old(connectIds) - Q.TerminalIds(batch)
      ensures cancelled == old(cancelled) - Q.TerminalIds(batch)
    {
      for i := 0 to |batch|
        invariant connectIds == old(connectIds) - Q.TerminalIds(batch[..i])
        invariant cancelled == old(cancelled) - Q.TerminalIds(batch[..i])
      {
        TerminalIdsSnoc(batch[..i], batch[i]);
        assert batch[..i + 1] == batch[..i] + [batch[i]];
        if TerminalConnectId(batch[i]).Some? {
          connectIds := connectIds - {TerminalConnectId(batch[i]).value};
          cancelled := cancelled - {TerminalConnectId(batch[i]).value};
        }
      }
      assert batch[..|batch|] == batch;
    }

    method CancelConnect(id: nat, ghost room: nat)
      requires Valid()
      modifies this, carry
      ensures Valid() && State() == Q.Cancel(old(State()), id)
      ensures old(Orderly(room)) ==> Orderly(room)
    {
      hide C.Listing, Indexed, C.Suppress, Keyed, InOrder, SatAdd;
      if id in connectIds {
        ghost var s := carry.State();
        connectIds := connectIds - {id};
        var suppressed := carry.SuppressCancelled({id});
        FewerInOrder(s, carry.State(), room);
        stats := stats.(dropped := SatAdd(stats.dropped, suppressed));
        cancelled := cancelled + {id};
      }
    }
  }

  /** Removals never put a carry out of order. */
  lemma FewerInOrder(s: Store, t: Store, n: nat)
    requires t.events.Keys <= s.events.Keys && t.nextId == s.nextId && (Indexed(s) ==> Indexed(t))
    ensures InOrder(s, n) ==> InOrder(t, n)
  {
    hide Indexed;
    assert Below(s.events, s.nextId) ==> Below(t.events, t.nextId) by {
      assert forall k | k in t.events :: k in t.events.Keys && k in s.events;
    }
  }

  lemma OrderIgnoresRetired(s: Store, n: nat)
    ensures InOrder(s.(droppedTerminal := {}), n) == InOrder(s, n)
    ensures Keyed(s.(droppedTerminal := {})) == Keyed(s)
  {
  }

  lemma ListIs(c: C.Carry)
    ensures c.List() == ListOf(c.State())
  {
  }

  lemma SatZero()
    ensures Q.Sat(0) == 0
  {
  }

  lemma SatStep(n: nat)
    ensures SatAdd(Q.Sat(n), 1) == Q.Sat(n + 1) && SatAdd(Q.Sat(n), 0) == Q.Sat(n)
  {
  }
}
