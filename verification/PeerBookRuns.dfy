/**
 Whole runs of the peer book: client replay, agreement with the book once drained, and
 exact draining (crates/discovery/src/book.rs).
 */
module PeerBookRuns {
  import opened Bytes
  import opened Sequences
  import opened PeerBook
  import opened PeerBookQueue

  // ---- one poll ----

  lemma PollState(b: Book)
    requires Inv(b) && b.order != [] && b.pending[b.order[0]].state.Some?
    ensures var p := b.order[0]; var a := Announce(TakeState(b, p), p, b.pending[p].state.value);
            && a.Some?
            && PollEvent(b) == (Cleanup(a.value.0, p), Some(a.value.1))
            && Inv(PollEvent(b).0)
            && Replay(Told(b), a.value.1) == Some(Told(PollEvent(b).0))
  {
    hide Delta, SameKind, ViewOf, Without;
    var p := b.order[0];
    HeadPending(b);
    assert SyncAt(b, p);
    AnnounceFits(b, p);
    var a := Announce(TakeState(b, p), p, b.pending[p].state.value);
    AnnounceFrame(b, p);
    CleanupInv(b, a.value.0, p, b.pending[p].(state := None));
    CleanupTold(a.value.0, p);
  }

  lemma AnnounceFrame(b: Book, p: Peer)
    requires p in b.pending && b.pending[p].state.Some?
    ensures var a := Announce(TakeState(b, p), p, b.pending[p].state.value);
            a.Some? ==>
              && a.value.0 == b.(pending := b.pending[p := b.pending[p].(state := None)], reported := a.value.0.reported)
              && a.value.0.reported - {p} == b.reported - {p}
  {
    hide ViewOf;
  }

  lemma CleanupTold(b: Book, p: Peer)
    ensures Told(Cleanup(b, p)) == Told(b)
  {
    hide Without;
  }

  lemma PollFailure(b: Book)
    requires Inv(b) && b.order != [] && b.pending[b.order[0]].state.None?
    ensures var p := b.order[0];
            && b.pending[p].dialFailed.Some?
            && PollEvent(b) == (Cleanup(TakeFailure(b, p), p), Some(DialFailed(p, b.pending[p].dialFailed.value)))
            && Inv(PollEvent(b).0)
            && Told(PollEvent(b).0) == Told(b)
  {
    hide Delta, SameKind, ViewOf, Without;
    var p := b.order[0];
    HeadPending(b);
    var b' := TakeFailure(b, p);
    assert SyncAt(b', p) by {
      assert SyncAt(b, p);
      CurrentFrame(b, b', p);
    }
    CleanupInv(b, b', p, Pending(None, None));
    CleanupTold(b', p);
  }

  lemma PollViolation(b: Book)
    requires Inv(b) && b.order == []
    ensures Inv(PollEvent(b).0) && Told(PollEvent(b).0) == Told(b)
    ensures PollEvent(b).1.Some? ==> Replay(Told(b), PollEvent(b).1.value) == Some(Told(b))
  {
    QuietInv(b, PollEvent(b).0);
  }

  /** Polling keeps the invariant, and the polled event is exactly what updates the client. */
  lemma PollReplays(b: Book)
    requires Inv(b)
    ensures Inv(PollEvent(b).0)
    ensures PollEvent(b).1.None? ==> Told(PollEvent(b).0) == Told(b)
    ensures PollEvent(b).1.Some? ==> Replay(Told(b), PollEvent(b).1.value) == Some(Told(PollEvent(b).0))
  {
    if b.order == [] {
      PollViolation(b);
    } else {
      HeadPending(b);
      if b.pending[b.order[0]].state.Some? {
        PollState(b);
      } else {
        PollFailure(b);
      }
    }
    hide Inv, PollEvent, Told;
  }

  // ---- counting ----

  ghost function States(b: Book): set<Peer> {
    set p | p in b.pending && b.pending[p].state.Some?
  }

  ghost function Failures(b: Book): set<Peer> {
    set p | p in b.pending && b.pending[p].dialFailed.Some?
  }

  /** `pending_event_count`. */
  ghost function PendingEventCount(b: Book): nat {
    |States(b)| + |Failures(b)| + |b.violations|
  }

  lemma CleanupCounts(b: Book, p: Peer)
    ensures States(Cleanup(b, p)) == States(b) && Failures(Cleanup(b, p)) == Failures(b)
    ensures Cleanup(b, p).violations == b.violations
  {
    hide Without;
  }

  lemma StateTaken(b: Book, b': Book, p: Peer)
    requires p in States(b) && b'.pending == b.pending[p := b.pending[p].(state := None)] && b'.violations == b.violations
    ensures PendingEventCount(b) == PendingEventCount(b') + 1
  {
    assert States(b) == States(b') + {p};
    assert Failures(b') == Failures(b);
  }

  lemma FailureTaken(b: Book, p: Peer)
    requires p in Failures(b)
    ensures PendingEventCount(b) == PendingEventCount(TakeFailure(b, p)) + 1
  {
    assert Failures(b) == Failures(TakeFailure(b, p)) + {p};
    assert States(TakeFailure(b, p)) == States(b);
  }

  lemma NothingPending(b: Book)
    requires QueueOk(b) && b.order == []
    ensures PendingEventCount(b) == |b.violations|
  {
    assert States(b) == {} && Failures(b) == {};
  }

  /** A poll returns an event exactly when one is counted, and uses up exactly one. */
  lemma PollCounts(b: Book)
    requires Inv(b)
    ensures PollEvent(b).1.Some? <==> PendingEventCount(b) > 0
    ensures PendingEventCount(b) == PendingEventCount(PollEvent(b).0) + if PollEvent(b).1.Some? then 1 else 0
  {
    hide Delta, SameKind, ViewOf, Without;
    if b.order == [] {
      NothingPending(b);
      PollViolation(b);
      NothingPending(PollEvent(b).0);
    } else {
      HeadPending(b);
      var p := b.order[0];
      if b.pending[p].state.Some? {
        PollState(b);
        AnnounceFrame(b, p);
        var told := Announce(TakeState(b, p), p, b.pending[p].state.value).value.0;
        StateTaken(b, told, p);
        CleanupCounts(told, p);
      } else {
        PollFailure(b);
        FailureTaken(b, p);
        CleanupCounts(TakeFailure(b, p), p);
      }
    }
  }

  /** The events of up to `n` polls, stopping when there is none. */
  function DrainAll(b: Book, n: nat): (Book, seq<Event>)
    decreases n
  {
    if n == 0 || PollEvent(b).1.None? then (b, [])
    else
      var rest := DrainAll(PollEvent(b).0, n - 1);
      (rest.0, [PollEvent(b).1.value] + rest.1)
  }

  function ReplayAll(client: map<Peer, seq<Addr>>, events: seq<Event>): Option<map<Peer, seq<Addr>>>
    decreases |events|
  {
    if events == [] then Some(client)
    else
      match Replay(client, events[0])
      case None => None
      case Some(next) => ReplayAll(next, events[1..])
  }

  /** The addresses `known_peers` lists. */
  ghost function Known(b: Book): map<Peer, seq<Addr>> {
    map p | p in b.book :: ViewOf(b.config, b.book[p]).merged
  }

  /** With nothing left to say, the client holds exactly the book. */
  lemma DrainedMatches(b: Book)
    requires Inv(b) && States(b) == {}
    ensures Told(b) == Known(b)
  {
    hide ViewOf, Delta;
    forall p
      ensures (p in b.reported <==> p in b.book)
      ensures p in b.book ==> b.reported[p] == ViewOf(b.config, b.book[p])
    {
      assert SyncAt(b, p);
      assert p !in States(b);
      DeltaNone(Reported(b, p), Current(b, p));
    }
  }

  lemma DeltaNone(from: Option<View>, to: Option<View>)
    ensures Delta(from, to, Mdns).None? <==> from == to
  {
  }

  lemma EmptyCount(b: Book)
    requires PendingEventCount(b) == 0
    ensures States(b) == {}
  {
  }

  /**
   Draining returns exactly `pending_event_count` events and then nothing; replayed on top
   of what the client held they are all legal and leave it holding exactly the book.
   */
  lemma {:induction false} DrainReplaysToBook(b: Book, n: nat)
    requires Inv(b) && n >= PendingEventCount(b)
    ensures |DrainAll(b, n).1| == PendingEventCount(b)
    ensures PollEvent(DrainAll(b, n).0).1.None?
    ensures ReplayAll(Told(b), DrainAll(b, n).1) == Some(Known(b))
    decreases n
  {
    hide Inv, PollEvent, PendingEventCount, Told, Known, Replay;
    PollCounts(b);
    PollReplays(b);
    PollKnown(b);
    if n == 0 || PollEvent(b).1.None? {
      EmptyCount(b);
      DrainedMatches(b);
    } else {
      DrainReplaysToBook(PollEvent(b).0, n - 1);
      var rest := DrainAll(PollEvent(b).0, n - 1);
      var e := PollEvent(b).1.value;
      assert DrainAll(b, n).1 == [e] + rest.1;
      assert ([e] + rest.1)[1..] == rest.1;
    }
  }

  /** Polling never touches the book itself. */
  lemma {:induction false} PollKnown(b: Book)
    ensures PollEvent(b).0.book == b.book && PollEvent(b).0.config == b.config && PollEvent(b).0.local == b.local
    ensures PollEvent(b).0.log == b.log && PollEvent(b).0.actions == b.actions && PollEvent(b).0.attempts == b.attempts
    ensures Known(PollEvent(b).0) == Known(b)
    decreases |b.order|, HeadHasState(b)
  {
    hide ViewOf, Without;
    if b.order != [] {
      var p := b.order[0];
      WithoutShrinks(b.order, p);
      if p in b.pending && b.pending[p].state.Some? {
        var taken := TakeState(b, p);
        if Announce(taken, p, b.pending[p].state.value).None? {
          PollKnown(Cleanup(taken, p));
        }
      } else if !(p in b.pending && b.pending[p].dialFailed.Some?) {
        PollKnown(RemovePending(b, p));
      }
    }
  }

  // ---- runs ----

  datatype Op =
    | Beaconed(peer: Peer, addrs: seq<Option<Addr>>, now: nat)
    | Claimed(peer: Peer, claims: seq<(Option<Addr>, nat)>, now: nat)
    | Connect(peer: Peer)
    | Disconnect(peer: Peer)
    | Success(peer: Peer)
    | Failure(peer: Peer, reason: string, now: nat)
    | Reset
    | Ticked(peers: seq<Peer>, now: nat)
    | Violated(blamed: Option<Peer>, source: Source, reason: string)
    | PolledAction
    | PolledEvent

  ghost function Do(b: Book, op: Op): Book {
    match op
    case Beaconed(p, addrs, now) => ObserveBeacon(b, p, addrs, now)
    case Claimed(p, claims, now) => ObserveMdns(b, p, claims, now)
    case Connect(p) => PeerConnected(b, p)
    case Disconnect(p) => PeerDisconnected(b, p)
    case Success(p) => DialSucceeded(b, p)
    case Failure(p, reason, now) => DialFailedWith(b, p, reason, now)
    case Reset => ResetDials(b)
    case Ticked(peers, now) => Tick(b, peers, now)
    case Violated(p, source, reason) => ReportViolation(b, p, source, reason)
    case PolledAction => PollAction(b).0
    case PolledEvent => PollEvent(b).0
  }

  lemma DoInv(b: Book, op: Op)
    requires Inv(b)
    ensures Inv(Do(b, op))
  {
    hide Inv, ObserveBeacon, ObserveMdns, DialFailedWith, Tick, PollEvent, PeerConnected, DialSucceeded, ResetDials;
    match op
    case Beaconed(p, addrs, now) => ObserveBeaconInv(b, p, addrs, now);
    case Claimed(p, claims, now) => ObserveMdnsInv(b, p, claims, now);
    case Connect(p) => ConnectionInv(b, p);
    case Disconnect(p) => ConnectionInv(b, p);
    case Success(p) => ConnectionInv(b, p);
    case Failure(p, reason, now) => DialFailedInv(b, p, reason, now);
    case Reset => ResetDialsInv(b);
    case Ticked(peers, now) => TickInv(b, peers, now);
    case Violated(p, source, reason) => QuietInv(b, Do(b, op));
    case PolledAction => QuietInv(b, Do(b, op));
    case PolledEvent => PollReplays(b);
  }

  ghost function Run(b: Book, ops: seq<Op>): Book {
    if ops == [] then b else Do(Run(b, ops[..|ops| - 1]), ops[|ops| - 1])
  }

  /** Every event a run polled, in order. */
  ghost function Polled(b: Book, ops: seq<Op>): seq<Event> {
    if ops == [] then []
    else
      var before, op := ops[..|ops| - 1], ops[|ops| - 1];
      var event := PollEvent(Run(b, before)).1;
      Polled(b, before) + (if op.PolledEvent? && event.Some? then [event.value] else [])
  }

  /** Only polling changes what the client was told. */
  lemma DoTold(b: Book, op: Op)
    requires !op.PolledEvent?
    ensures Told(Do(b, op)) == Told(b)
  {
    ReportedKept(b, op);
    hide Do;
  }

  /** What only polling, or nothing, changes. */
  predicate Keeps(b: Book, b': Book) {
    b'.reported == b.reported && b'.config == b.config && b'.local == b.local
  }

  lemma MarkReported(b: Book, x: Peer, source: Source)
    ensures Keeps(b, MarkState(b, x, source))
  {
    hide Without, ViewOf, Delta;
  }

  lemma RemovePeerReported(b: Book, x: Peer)
    ensures Keeps(b, RemovePeer(b, x))
  {
    hide MarkState, PurgedActions;
    if x in b.book {
      MarkReported(b.(book := b.book - {x}, actions := PurgedActions(b.actions, x, b.book[x].dial), log := b.log + [Removed(x)]), x, Mdns);
    }
  }

  lemma MarkIfChangedReported(before: Option<View>, b: Book, x: Peer, source: Source)
    ensures Keeps(b, MarkIfChanged(before, b, x, source))
  {
    hide MarkState, Current;
    MarkReported(b, x, source);
  }

  lemma MaybeDialReported(b: Book, p: Peer, source: Source, now: nat)
    ensures Keeps(b, MaybeDial(b, p, source, now))
  {
    hide MayDial, ViewOf;
    if MayDial(b, p, source, now) {
      MayDialKnown(b, p, source, now);
    }
  }

  lemma MakeRoomReported(b: Book, incoming: Peer, source: Source)
    ensures Keeps(b, MakeRoom(b, incoming, source).1)
  {
    hide RemovePeer, IsVictim;
    forall c
      ensures Keeps(b, RemovePeer(b, c))
    {
      RemovePeerReported(b, c);
    }
  }

  lemma InsertBeaconReported(b: Book, p: Peer, addrs: seq<Addr>, now: nat)
    ensures Keeps(b, InsertBeacon(b, p, addrs, now))
  {
    hide WithBeacon, BeaconChanged, MarkIfChanged, MaybeDial, Current;
    var e := EntryOf(b, p);
    var moved := if BeaconChanged(e, addrs) && e.dial.Backoff? then [BeaconMoved(p)] else [];
    var b1 := b.(book := b.book[p := WithBeacon(e, addrs, now)], log := b.log + moved);
    MarkIfChangedReported(Current(b, p), b1, p, SignedBeacon);
    MaybeDialReported(MarkIfChanged(Current(b, p), b1, p, SignedBeacon), p, SignedBeacon, now);
  }

  lemma InsertClaimsReported(b: Book, p: Peer, claims: seq<(Addr, nat)>, now: nat)
    ensures Keeps(b, InsertClaims(b, p, claims, now))
  {
    hide ApplyClaims, MarkIfChanged, MaybeDial, Current, RemovePeer, IsEmpty, HasPositive;
    var b1 := b.(book := b.book[p := ApplyClaims(EntryOf(b, p), claims, now, b.config)]);
    RemovePeerReported(b1, p);
    MarkIfChangedReported(Current(b, p), b1, p, Mdns);
    MaybeDialReported(MarkIfChanged(Current(b, p), b1, p, Mdns), p, Mdns, now);
  }

  lemma {:induction false} TickReported(b: Book, peers: seq<Peer>, now: nat)
    ensures Keeps(b, Tick(b, peers, now))
  {
    hide ExpireOne;
    if peers != [] {
      TickReported(b, peers[..|peers| - 1], now);
      ExpireOneReported(Tick(b, peers[..|peers| - 1], now), peers[|peers| - 1], now);
    }
  }

  lemma ExpireOneReported(b: Book, p: Peer, now: nat)
    ensures Keeps(b, ExpireOne(b, p, now))
  {
    hide Expire, MarkIfChanged, Current, RemovePeer, IsEmpty, BeaconDue, MdnsDue;
    if p in b.book {
      var b1 := b.(book := b.book[p := Expire(b.book[p], now, b.config)]);
      RemovePeerReported(b1, p);
      MarkIfChangedReported(Current(b, p), b1, p, if BeaconDue(b.book[p], now, b.config) then SignedBeacon else Mdns);
    }
  }

  lemma ReportedKept(b: Book, op: Op)
    requires !op.PolledEvent?
    ensures Keeps(b, Do(b, op))
  {
    hide MakeRoom, InsertBeacon, InsertClaims, Normalize, Accepted, HasPositive, Tick, Without;
    match op
    case Beaconed(p, addrs, now) =>
      MakeRoomReported(b, p, SignedBeacon);
      var as_ := Normalize(addrs, [], b.config.maxAddrs);
      InsertBeaconReported(b, p, as_, now);
      InsertBeaconReported(MakeRoom(b, p, SignedBeacon).1, p, as_, now);
    case Claimed(p, claims, now) =>
      MakeRoomReported(b, p, Mdns);
      InsertClaimsReported(b, p, Accepted(claims), now);
      InsertClaimsReported(MakeRoom(b, p, Mdns).1, p, Accepted(claims), now);
    case Ticked(peers, now) => TickReported(b, peers, now);
    case _ =>
  }

  lemma {:induction false} ReplaySnoc(client: map<Peer, seq<Addr>>, events: seq<Event>, e: Event)
    requires ReplayAll(client, events).Some?
    ensures ReplayAll(client, events + [e]) == Replay(ReplayAll(client, events).value, e)
    decreases |events|
  {
    hide Replay;
    if events == [] {
      assert events + [e] == [e] && [e][1..] == [];
    } else {
      assert (events + [e])[1..] == events[1..] + [e];
      ReplaySnoc(Replay(client, events[0]).value, events[1..], e);
    }
  }

  lemma {:induction false} RunInv(b: Book, ops: seq<Op>)
    requires Inv(b)
    ensures Inv(Run(b, ops))
    ensures ReplayAll(Told(b), Polled(b, ops)) == Some(Told(Run(b, ops)))
  {
    hide Inv, Do, PollEvent, Told, Replay;
    if ops != [] {
      var before, op := ops[..|ops| - 1], ops[|ops| - 1];
      RunInv(b, before);
      var c := Run(b, before);
      DoInv(c, op);
      if op.PolledEvent? {
        PollReplays(c);
        DoPolled(c);
        if PollEvent(c).1.Some? {
          ReplaySnoc(Told(b), Polled(b, before), PollEvent(c).1.value);
        } else {
          assert Polled(b, before) + [] == Polled(b, before);
          assert Polled(b, ops) == Polled(b, before);
        }
      } else {
        DoTold(c, op);
        assert Polled(b, ops) == Polled(b, before) + [];
      }
    }
  }

  lemma DoPolled(b: Book)
    ensures Do(b, PolledEvent) == PollEvent(b).0
  {
  }

  /** The configuration and the local id never change. */
  lemma {:induction false} RunConfig(b: Book, ops: seq<Op>)
    ensures Run(b, ops).config == b.config && Run(b, ops).local == b.local
  {
    hide Do;
    if ops != [] {
      var c, op := Run(b, ops[..|ops| - 1]), ops[|ops| - 1];
      RunConfig(b, ops[..|ops| - 1]);
      if op.PolledEvent? {
        DoPolled(c);
        PollKnown(c);
      } else {
        ReportedKept(c, op);
      }
    }
  }

  lemma NewInv(local: Peer, config: Config)
    ensures Inv(New(local, config)) && Told(New(local, config)) == map[]
  {
  }

  /**
   In every run each peer's pending transition is the difference between what was reported
   and what the book shows; the queue lists the pending peers once each; and the events
   polled so far replay without error to exactly what was reported.
   */
  lemma EveryRunReplays(local: Peer, config: Config, ops: seq<Op>)
    ensures var b := Run(New(local, config), ops);
            && Inv(b)
            && ReplayAll(map[], Polled(New(local, config), ops)) == Some(Told(b))
  {
    NewInv(local, config);
    RunInv(New(local, config), ops);
    hide Inv, Run, Polled, Told;
  }

  /** The queue holds at most the peers known or reported, and one more at its head. */
  lemma PendingIsBounded(b: Book)
    requires Inv(b)
    ensures |b.pending| <= |b.book.Keys + b.reported.Keys| + 1
  {
    hide ViewOf, Delta, SameKind;
    var homes := b.book.Keys + b.reported.Keys;
    forall p | p in b.pending
      ensures p in homes || (b.order != [] && p == b.order[0])
    {
      assert HomeAt(b, p);
    }
    SizeWithHead(b.pending.Keys, homes, if b.order == [] then 0 else b.order[0]);
  }

  lemma SizeWithHead(keys: set<Peer>, homes: set<Peer>, head: Peer)
    requires keys <= homes + {head}
    ensures |keys| <= |homes| + 1
  {
    assert homes + {head} == keys + (homes + {head} - keys);
  }

  /** At any point, polling until empty brings the client exactly to the book. */
  lemma EveryRunConverges(local: Peer, config: Config, ops: seq<Op>)
    ensures var b := Run(New(local, config), ops);
            var drained := DrainAll(b, PendingEventCount(b)).1;
            && |drained| == PendingEventCount(b)
            && ReplayAll(map[], Polled(New(local, config), ops) + drained) == Some(Known(b))
  {
    hide Inv, Run, Polled, Told, Known, PendingEventCount, DrainAll, ReplayAll;
    EveryRunReplays(local, config, ops);
    var b := Run(New(local, config), ops);
    DrainReplaysToBook(b, PendingEventCount(b));
    ReplayConcat(map[], Polled(New(local, config), ops), DrainAll(b, PendingEventCount(b)).1);
  }

  lemma {:induction false} ReplayConcat(client: map<Peer, seq<Addr>>, a: seq<Event>, z: seq<Event>)
    requires ReplayAll(client, a).Some?
    ensures ReplayAll(client, a + z) == ReplayAll(ReplayAll(client, a).value, z)
    decreases |a|
  {
    hide Replay;
    if a == [] {
      assert a + z == z;
    } else {
      assert (a + z)[1..] == a[1..] + z;
      ReplayConcat(Replay(client, a[0]).value, a[1..], z);
    }
  }
}
