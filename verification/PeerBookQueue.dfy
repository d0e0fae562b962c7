/**
 The coalescing event queue of the peer book: in every run a client that replays the polled
 events sees a legal history and, once the queue is empty, holds exactly the book.
 */
module PeerBookQueue {
  import opened Bytes
  import opened Sequences
  import opened PeerBook

  // ---- the invariant ----

  /** `order` lists the peers that have something pending, each once. */
  ghost predicate QueueOk(b: Book) {
    && NoDuplicates(b.order)
    && (forall p :: p in b.order <==> p in b.pending)
    && (forall p | p in b.pending :: b.pending[p] != Pending(None, None))
  }

  predicate SameKind(a: Option<Transition>, b: Option<Transition>) {
    && (a.None? <==> b.None?)
    && (a.Some? && b.Some? ==>
          && (a.value.Discovered? <==> b.value.Discovered?)
          && (a.value.Updated? <==> b.value.Updated?))
  }

  /** A peer's pending transition is the step from what was reported to what the book shows. */
  predicate SyncAt(b: Book, p: Peer) {
    SameKind(PendingOf(b, p).state, Delta(Reported(b, p), Current(b, p), Mdns))
  }

  /** A queued peer is known or reported; only the head may be neither, with just a dial failure. */
  predicate HomeAt(b: Book, p: Peer) {
    p in b.pending ==>
      || Current(b, p).Some?
      || p in b.reported
      || (b.order != [] && b.order[0] == p && b.pending[p].state.None?)
  }

  ghost predicate Inv(b: Book) {
    QueueOk(b) && (forall p :: SyncAt(b, p)) && (forall p :: HomeAt(b, p))
  }

  // ---- frames ----

  predicate SameQueue(b: Book, b': Book) {
    b'.pending == b.pending && b'.order == b.order && b'.reported == b.reported
  }

  /** Only `x` may show differently. */
  ghost predicate AgreesBut(b: Book, b': Book, x: Peer) {
    forall p | p != x :: Current(b', p) == Current(b, p)
  }

  lemma FrameInv(b: Book, b': Book, x: Peer)
    requires Inv(b) && SameQueue(b, b') && AgreesBut(b, b', x) && Current(b', x) == Current(b, x)
    ensures Inv(b')
  {
    hide Current, Delta, SameKind;
    forall p
      ensures SyncAt(b', p) && HomeAt(b', p)
    {
      assert Current(b', p) == Current(b, p);
      assert SyncAt(b, p) && HomeAt(b, p);
    }
  }

  // ---- the primitives on the queue ----

  lemma RemovePendingQueue(b: Book, x: Peer)
    requires QueueOk(b)
    ensures QueueOk(RemovePending(b, x))
  {
    hide Without;
    WithoutFacts(b.order, x);
  }

  lemma PutPendingQueue(b: Book, x: Peer, slot: Pending)
    requires QueueOk(b) && slot != Pending(None, None)
    ensures QueueOk(PutPending(b, x, slot))
  {
  }

  /** What the primitives do to the other peers. */
  lemma RemovePendingOthers(b: Book, x: Peer, p: Peer)
    requires p != x && SyncAt(b, p) && HomeAt(b, p)
    ensures SyncAt(RemovePending(b, x), p) && HomeAt(RemovePending(b, x), p)
  {
    hide Without, Current, Delta, SameKind;
    WithoutFacts(b.order, x);
    CurrentFrame(b, RemovePending(b, x), p);
  }

  lemma PutPendingOthers(b: Book, x: Peer, slot: Pending, p: Peer)
    requires p != x && SyncAt(b, p) && HomeAt(b, p)
    ensures SyncAt(PutPending(b, x, slot), p) && HomeAt(PutPending(b, x, slot), p)
  {
    hide Current, Delta, SameKind;
    CurrentFrame(b, PutPending(b, x, slot), p);
  }

  lemma CurrentFrame(b: Book, b': Book, p: Peer)
    requires b'.book == b.book && b'.config == b.config
    ensures Current(b', p) == Current(b, p)
  {
  }

  lemma MarkedAt(b: Book, x: Peer, source: Source)
    ensures SyncAt(MarkState(b, x, source), x) && HomeAt(MarkState(b, x, source), x)
  {
    hide Without, ViewOf;
    CurrentFrame(b, MarkState(b, x, source), x);
  }

  lemma MarkedOther(b: Book, x: Peer, source: Source, p: Peer)
    requires p != x && SyncAt(b, p) && HomeAt(b, p)
    ensures SyncAt(MarkState(b, x, source), p) && HomeAt(MarkState(b, x, source), p)
  {
    var slot := PendingOf(b, x).(state := Delta(Reported(b, x), Current(b, x), source));
    RemovePendingOthers(b, x, p);
    PutPendingOthers(b, x, slot, p);
    hide RemovePending, PutPending, SyncAt, HomeAt;
  }

  lemma MarkedQueue(b: Book, x: Peer, source: Source)
    requires QueueOk(b)
    ensures QueueOk(MarkState(b, x, source))
  {
    hide QueueOk, RemovePending, PutPending;
    var slot := PendingOf(b, x).(state := Delta(Reported(b, x), Current(b, x), source));
    RemovePendingQueue(b, x);
    if slot != Pending(None, None) {
      PutPendingQueue(b, x, slot);
    }
  }

  /** Marking a peer restores the invariant after that peer's entry changed. */
  lemma MarkStateInv(b: Book, b': Book, x: Peer, source: Source)
    requires Inv(b) && SameQueue(b, b') && AgreesBut(b, b', x)
    ensures Inv(MarkState(b', x, source))
  {
    hide MarkState, Current, Delta, SameKind;
    MarkedQueue(b', x, source);
    MarkedAt(b', x, source);
    forall p | p != x
      ensures SyncAt(MarkState(b', x, source), p) && HomeAt(MarkState(b', x, source), p)
    {
      assert Current(b', p) == Current(b, p);
      assert SyncAt(b, p) && HomeAt(b, p);
      MarkedOther(b', x, source, p);
    }
  }

  lemma MarkIfChangedInv(b: Book, b': Book, x: Peer, source: Source)
    requires Inv(b) && SameQueue(b, b') && AgreesBut(b, b', x)
    ensures Inv(MarkIfChanged(Current(b, x), b', x, source))
  {
    hide MarkState, Inv, Current;
    if Current(b, x) == Current(b', x) {
      FrameInv(b, b', x);
    } else {
      MarkStateInv(b, b', x, source);
    }
  }

  lemma BookUpdate(b: Book, b': Book, x: Peer)
    requires b'.config == b.config && b'.book - {x} == b.book - {x}
    ensures AgreesBut(b, b', x)
  {
    hide ViewOf;
    forall p | p != x
      ensures Current(b', p) == Current(b, p)
    {
      assert p in b.book <==> p in b.book - {x};
      assert p in b'.book <==> p in b'.book - {x};
      if p in b.book {
        assert (b.book - {x})[p] == b.book[p] && (b'.book - {x})[p] == b'.book[p];
      }
    }
  }

  // ---- the operations ----

  lemma RemovePeerInv(b: Book, b': Book, x: Peer)
    requires Inv(b) && SameQueue(b, b') && b'.config == b.config && b'.book - {x} == b.book - {x}
    requires x in b'.book || b' == b
    ensures Inv(RemovePeer(b', x))
  {
    hide Inv, MarkState, PurgedActions;
    if x in b'.book {
      var c := b'.(book := b'.book - {x}, actions := PurgedActions(b'.actions, x, b'.book[x].dial), log := b'.log + [Removed(x)]);
      assert c.book - {x} == b.book - {x};
      BookUpdate(b, c, x);
      MarkStateInv(b, c, x, Mdns);
    }
  }

  lemma MakeRoomInv(b: Book, incoming: Peer, source: Source)
    requires Inv(b)
    ensures Inv(MakeRoom(b, incoming, source).1)
  {
    hide Inv, RemovePeer, IsVictim;
    forall c
      ensures Inv(RemovePeer(b, c))
    {
      RemovePeerInv(b, b, c);
    }
  }

  lemma SetEntryInv(b: Book, b': Book, x: Peer)
    requires Inv(b) && SameQueue(b, b') && b'.config == b.config
    requires x in b.book && x in b'.book && b'.book - {x} == b.book - {x}
    requires SameRecords(b.book[x], b'.book[x])
    ensures Inv(b')
  {
    hide Inv, SameRecords;
    BookUpdate(b, b', x);
    SameRecordsView(b.config, b.book[x], b'.book[x]);
    hide ViewOf;
    FrameInv(b, b', x);
  }

  predicate SameRecords(e: Entry, e': Entry) {
    e'.beacon == e.beacon && e'.mdns == e.mdns && e'.mdnsOrder == e.mdnsOrder
  }

  lemma SameRecordsView(c: Config, e: Entry, e': Entry)
    requires SameRecords(e, e')
    ensures ViewOf(c, e') == ViewOf(c, e)
  {
    hide Merge;
    assert BeaconAddrs(e') == BeaconAddrs(e);
  }

  lemma MaybeDialInv(b: Book, p: Peer, source: Source, now: nat)
    requires Inv(b)
    ensures Inv(MaybeDial(b, p, source, now))
  {
    hide Inv, MayDial, ViewOf, RW.Charge;
    if MayDial(b, p, source, now) {
      MayDialKnown(b, p, source, now);
      var b' := MaybeDial(b, p, source, now);
      assert b'.book - {p} == b.book - {p};
      SetEntryInv(b, b', p);
    }
  }

  lemma MayDialKnown(b: Book, p: Peer, source: Source, now: nat)
    requires MayDial(b, p, source, now)
    ensures p in b.book
  {
  }

  lemma InsertBeaconInv(b: Book, p: Peer, addrs: seq<Addr>, now: nat)
    requires Inv(b)
    ensures Inv(InsertBeacon(b, p, addrs, now))
  {
    hide Inv, WithBeacon, BeaconChanged, MarkIfChanged, MaybeDial, Current;
    var e := EntryOf(b, p);
    var moved := if BeaconChanged(e, addrs) && e.dial.Backoff? then [BeaconMoved(p)] else [];
    var b1 := b.(book := b.book[p := WithBeacon(e, addrs, now)], log := b.log + moved);
    assert b1.book - {p} == b.book - {p};
    BookUpdate(b, b1, p);
    MarkIfChangedInv(b, b1, p, SignedBeacon);
    MaybeDialInv(MarkIfChanged(Current(b, p), b1, p, SignedBeacon), p, SignedBeacon, now);
  }

  lemma ObserveBeaconInv(b: Book, p: Peer, addrs: seq<Option<Addr>>, now: nat)
    requires Inv(b)
    ensures Inv(ObserveBeacon(b, p, addrs, now))
  {
    hide Inv, MakeRoom, InsertBeacon, Normalize;
    var as_ := Normalize(addrs, [], b.config.maxAddrs);
    InsertBeaconInv(b, p, as_, now);
    MakeRoomInv(b, p, SignedBeacon);
    InsertBeaconInv(MakeRoom(b, p, SignedBeacon).1, p, as_, now);
  }

  lemma InsertClaimsInv(b: Book, p: Peer, claims: seq<(Addr, nat)>, now: nat)
    requires Inv(b)
    ensures Inv(InsertClaims(b, p, claims, now))
  {
    hide Inv, ApplyClaims, MarkIfChanged, MaybeDial, Current, RemovePeer, IsEmpty, HasPositive;
    var e := ApplyClaims(EntryOf(b, p), claims, now, b.config);
    var b1 := b.(book := b.book[p := e]);
    assert b1.book - {p} == b.book - {p};
    RemovePeerInv(b, b1, p);
    BookUpdate(b, b1, p);
    MarkIfChangedInv(b, b1, p, Mdns);
    MaybeDialInv(MarkIfChanged(Current(b, p), b1, p, Mdns), p, Mdns, now);
  }

  lemma ObserveMdnsInv(b: Book, p: Peer, claims: seq<(Option<Addr>, nat)>, now: nat)
    requires Inv(b)
    ensures Inv(ObserveMdns(b, p, claims, now))
  {
    hide Inv, MakeRoom, InsertClaims, Accepted, HasPositive;
    var accepted := Accepted(claims);
    InsertClaimsInv(b, p, accepted, now);
    MakeRoomInv(b, p, Mdns);
    InsertClaimsInv(MakeRoom(b, p, Mdns).1, p, accepted, now);
  }

  lemma SetDialInv(b: Book, b': Book, p: Peer, d: Dial)
    requires Inv(b) && p in b.book && b' == b.(book := b.book[p := b.book[p].(dial := d)], connected := b'.connected, log := b'.log)
    ensures Inv(b')
  {
    hide Inv;
    assert b'.book - {p} == b.book - {p};
    SetEntryInv(b, b', p);
  }

  lemma ConnectionInv(b: Book, p: Peer)
    requires Inv(b)
    ensures Inv(PeerConnected(b, p)) && Inv(PeerDisconnected(b, p)) && Inv(DialSucceeded(b, p))
  {
    hide Inv;
    FrameInv(b, b.(connected := b.connected + {p}), p);
    FrameInv(b, b.(connected := b.connected - {p}), p);
    if p in b.book {
      SetDialInv(b, PeerConnected(b, p), p, Idle);
      if b.book[p].dial.InFlight? {
        SetDialInv(b, DialSucceeded(b, p), p, Idle);
      }
    }
  }

  lemma MarkDialFailedInv(b: Book, p: Peer, reason: string)
    requires Inv(b) && p in b.book
    ensures Inv(MarkDialFailed(b, p, reason))
  {
    hide Delta, SameKind, ViewOf;
    var slot := PendingOf(b, p).(dialFailed := Some(CapReason(reason)));
    var b' := MarkDialFailed(b, p, reason);
    PutPendingQueue(b, p, slot);
    assert SyncAt(b', p) && HomeAt(b', p) by {
      assert SyncAt(b, p);
      CurrentFrame(b, b', p);
    }
    forall q | q != p
      ensures SyncAt(b', q) && HomeAt(b', q)
    {
      assert SyncAt(b, q) && HomeAt(b, q);
      PutPendingOthers(b, p, slot, q);
    }
  }

  lemma DialFailedInv(b: Book, p: Peer, reason: string, now: nat)
    requires Inv(b)
    ensures Inv(DialFailedWith(b, p, reason, now))
  {
    hide Inv, MarkDialFailed;
    if p in b.book && b.book[p].dial.InFlight? {
      var until := SatAdd(now, b.config.redialBackoff);
      var b1 := SetDial(b, p, Backoff(until)).(log := b.log + [Failed(p, until)]);
      SetDialInv(b, b1, p, Backoff(until));
      MarkDialFailedInv(b1, p, reason);
    }
  }

  lemma ResetDialsInv(b: Book)
    requires Inv(b)
    ensures Inv(ResetDials(b))
  {
    hide ViewOf, Delta, SameKind;
    var b' := ResetDials(b);
    forall p
      ensures Current(b', p) == Current(b, p)
    {
      if p in b.book {
        SameRecordsView(b.config, b.book[p], b'.book[p]);
      }
    }
    FrameInv(b, b', 0);
  }

  lemma ExpireOneInv(b: Book, p: Peer, now: nat)
    requires Inv(b)
    ensures Inv(ExpireOne(b, p, now))
  {
    hide Inv, Expire, MarkIfChanged, Current, RemovePeer, IsEmpty, BeaconDue, MdnsDue;
    if p in b.book {
      var b1 := b.(book := b.book[p := Expire(b.book[p], now, b.config)]);
      assert b1.book - {p} == b.book - {p};
      RemovePeerInv(b, b1, p);
      BookUpdate(b, b1, p);
      MarkIfChangedInv(b, b1, p, if BeaconDue(b.book[p], now, b.config) then SignedBeacon else Mdns);
    }
  }

  lemma {:induction false} TickInv(b: Book, peers: seq<Peer>, now: nat)
    requires Inv(b)
    ensures Inv(Tick(b, peers, now))
  {
    hide Inv, ExpireOne;
    if peers != [] {
      TickInv(b, peers[..|peers| - 1], now);
      ExpireOneInv(Tick(b, peers[..|peers| - 1], now), peers[|peers| - 1], now);
    }
  }

  lemma QuietInv(b: Book, b': Book)
    requires Inv(b) && SameQueue(b, b') && b'.book == b.book && b'.config == b.config
    ensures Inv(b')
  {
    hide Inv;
    FrameInv(b, b', 0);
  }

  // ---- polling ----

  /** What a client holds after replaying every event polled so far. */
  ghost function Told(b: Book): map<Peer, seq<Addr>> {
    map p | p in b.reported :: b.reported[p].merged
  }

  /** A client applies an event; a transition that does not fit what it holds is an error. */
  function Replay(client: map<Peer, seq<Addr>>, event: Event): Option<map<Peer, seq<Addr>>> {
    match event
    case PeerDiscovered(p, addrs, _) => if p in client then None else Some(client[p := addrs])
    case PeerUpdated(p, addrs, _) => if p in client then Some(client[p := addrs]) else None
    case PeerExpired(p) => if p in client then Some(client - {p}) else None
    case DialFailed(_, _) => Some(client)
    case ProtocolViolation(_) => Some(client)
  }

  /** The head of the queue has something to say. */
  lemma HeadPending(b: Book)
    requires QueueOk(b) && b.order != []
    ensures b.order[0] in b.pending && b.pending[b.order[0]] != Pending(None, None)
  {
  }

  /** Under the invariant a pending transition can always be announced. */
  lemma AnnounceFits(b: Book, p: Peer)
    requires SyncAt(b, p) && p in b.pending && b.pending[p].state.Some?
    ensures var t := b.pending[p].state.value;
            var a := Announce(TakeState(b, p), p, t);
            && a.Some?
            && Replay(Told(b), a.value.1) == Some(Told(a.value.0))
            && SameKind(None, Delta(Reported(a.value.0, p), Current(a.value.0, p), Mdns))
            && (t.Expired? || p in b.book)
  {
    hide ViewOf;
    var t := b.pending[p].state.value;
    var a := Announce(TakeState(b, p), p, t);
    if t.Expired? {
      assert Told(a.value.0) == Told(b) - {p};
    } else {
      assert Told(a.value.0) == Told(b)[p := ViewOf(b.config, b.book[p]).merged];
    }
  }

  /** Clearing the head's slot after it was told keeps the invariant. */
  lemma CleanupInv(b: Book, b': Book, p: Peer, slot: Pending)
    requires Inv(b) && b.order != [] && p == b.order[0]
    requires b'.config == b.config && b'.book == b.book && b'.order == b.order && b'.pending == b.pending[p := slot]
    requires b'.reported - {p} == b.reported - {p}
    requires SyncAt(b', p) && (slot.state.None? || Current(b', p).Some? || p in b'.reported)
    ensures Inv(Cleanup(b', p))
  {
    hide Delta, SameKind, ViewOf, Without;
    var c := Cleanup(b', p);
    CleanupQueue(b, b', p, slot);
    forall q
      ensures SyncAt(c, q) && HomeAt(c, q)
    {
      if q == p {
        CurrentFrame(b', c, p);
      } else {
        assert SyncAt(b, q) && HomeAt(b, q);
        ReportedFrame(b, b', p, q);
        WithoutFacts(b.order, p);
      }
    }
  }

  lemma ReportedFrame(b: Book, b': Book, p: Peer, q: Peer)
    requires b'.reported - {p} == b.reported - {p} && q != p
    ensures Reported(b', q) == Reported(b, q) && (q in b'.reported <==> q in b.reported)
  {
    assert q in b.reported <==> q in b.reported - {p};
    assert q in b'.reported <==> q in b'.reported - {p};
    if q in b.reported {
      assert (b.reported - {p})[q] == b.reported[q] && (b'.reported - {p})[q] == b'.reported[q];
    }
  }

  lemma CleanupQueue(b: Book, b': Book, p: Peer, slot: Pending)
    requires QueueOk(b) && p in b.pending && b'.order == b.order && b'.pending == b.pending[p := slot]
    ensures QueueOk(Cleanup(b', p))
  {
    hide Without;
    WithoutFacts(b.order, p);
  }
}
