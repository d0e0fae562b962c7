/**
 The dial policy of the peer book over whole runs: one dial outstanding per peer, backoff
 respected, dials only to known peers, and the mDNS rate limits, global and per peer
 (crates/discovery/src/book.rs).
 */
module PeerBookDials {
  import opened Bytes
  import opened Sequences
  import opened PeerBook
  import RW = RateWindow
  import Runs = PeerBookRuns

  // ---- a monitor that only reads the history ----

  /** Peers dialed and not settled since, and the earliest next dial after a failure. */
  datatype Monitor = Monitor(outstanding: set<Peer>, deadline: map<Peer, nat>, legal: bool)

  function Observe(m: Monitor, note: Note): Monitor {
    match note
    case Dialed(p, now, _) =>
      Monitor(m.outstanding + {p}, m.deadline - {p},
              m.legal && p !in m.outstanding && (p in m.deadline ==> now >= m.deadline[p]))
    case Connected(p) => m.(outstanding := m.outstanding - {p}, deadline := m.deadline - {p})
    case Succeeded(p) => m.(outstanding := m.outstanding - {p})
    case Failed(p, until) => m.(outstanding := m.outstanding - {p}, deadline := m.deadline[p := until])
    case BeaconMoved(p) => m.(deadline := m.deadline - {p})
    case Removed(p) => m.(outstanding := m.outstanding - {p}, deadline := m.deadline - {p})
    case ResetAll => m.(outstanding := {})
  }

  function Watch(log: seq<Note>): Monitor {
    if log == [] then Monitor({}, map[], true) else Observe(Watch(log[..|log| - 1]), log[|log| - 1])
  }

  lemma WatchSnoc(log: seq<Note>, note: Note)
    ensures Watch(log + [note]) == Observe(Watch(log), note)
  {
    assert (log + [note])[..|log|] == log;
  }

  // ---- the invariant ----

  function DialState(b: Book, p: Peer): Dial {
    if p in b.book then b.book[p].dial else Idle
  }

  function Expected(m: Monitor, p: Peer): Dial {
    if p in m.outstanding then InFlight else if p in m.deadline then Backoff(m.deadline[p]) else Idle
  }

  /** The dial states are what the history alone says they are. */
  ghost predicate DialsOk(b: Book) {
    && Watch(b.log).legal
    && Watch(b.log).outstanding !! Watch(b.log).deadline.Keys
    && forall p :: DialState(b, p) == Expected(Watch(b.log), p)
  }

  /** Every queued dial names a peer in the book. */
  predicate ActionsKnown(b: Book) {
    forall i | 0 <= i < |b.actions| :: b.actions[i].StartDial? ==> b.actions[i].peer in b.book
  }

  /** When mDNS dials were queued. */
  function MdnsTimes(log: seq<Note>): seq<nat> {
    if log == [] then []
    else
      var n := |log| - 1;
      MdnsTimes(log[..n]) + (if log[n].Dialed? && log[n].source.Mdns? then [log[n].now] else [])
  }

  lemma MdnsTimesSnoc(log: seq<Note>, note: Note)
    ensures MdnsTimes(log + [note]) == MdnsTimes(log) + if note.Dialed? && note.source.Mdns? then [note.now] else []
  {
    assert (log + [note])[..|log|] == log;
  }

  function Counted(times: seq<nat>, note: Note, p: Peer): seq<nat> {
    if note == Removed(p) then []
    else if note.Dialed? && note.source.Mdns? && note.peer == p then times + [note.now]
    else times
  }

  /** When mDNS dials of one peer were queued since it was last removed. */
  function PeerTimes(log: seq<Note>, p: Peer): seq<nat> {
    if log == [] then [] else Counted(PeerTimes(log[..|log| - 1], p), log[|log| - 1], p)
  }

  lemma PeerTimesSnoc(log: seq<Note>, note: Note, p: Peer)
    ensures PeerTimes(log + [note], p) == Counted(PeerTimes(log, p), note, p)
  {
    assert (log + [note])[..|log|] == log;
  }

  function AttemptsOf(b: Book, p: Peer): seq<nat> {
    if p in b.book then b.book[p].attempts else []
  }

  ghost predicate PeerRate(b: Book, p: Peer, clock: nat) {
    RW.Inv(RW.Limiter(AttemptsOf(b, p), PeerTimes(b.log, p), clock), b.config.window, b.config.peerLimit)
  }

  ghost predicate GlobalRate(b: Book, clock: nat) {
    RW.Inv(RW.Limiter(b.attempts, MdnsTimes(b.log), clock), b.config.window, b.config.globalLimit)
  }

  /** The limiters' own invariants, for runs on a proper clock. */
  ghost predicate RateOk(b: Book, clock: Option<nat>) {
    clock.Some? ==> GlobalRate(b, clock.value) && forall p :: PeerRate(b, p, clock.value)
  }

  /** An operation at `now`, on a clock that is proper or of no interest. */
  predicate At(clock: Option<nat>, now: nat) {
    clock.Some? ==> clock.value == now < U64_MAX
  }

  ghost predicate Safe(b: Book, clock: Option<nat>) {
    DialsOk(b) && ActionsKnown(b) && RateOk(b, clock)
  }

  // ---- frames ----

  predicate SameDialing(b: Book, b': Book) {
    b'.log == b.log && b'.actions == b.actions && b'.attempts == b.attempts && b'.config == b.config
  }

  ghost predicate SameAttempts(b: Book, b': Book) {
    forall p :: AttemptsOf(b', p) == AttemptsOf(b, p)
  }

  lemma RateFrame(b: Book, b': Book, clock: Option<nat>)
    requires RateOk(b, clock) && SameAttempts(b, b')
    requires b'.log == b.log && b'.attempts == b.attempts && b'.config == b.config
    ensures RateOk(b', clock)
  {
    hide AttemptsOf, MdnsTimes, PeerTimes, RW.Inv;
    if clock.Some? {
      forall p
        ensures PeerRate(b', p, clock.value)
      {
        assert PeerRate(b, p, clock.value) && AttemptsOf(b', p) == AttemptsOf(b, p);
      }
    }
  }

  lemma FrameSafe(b: Book, b': Book, clock: Option<nat>)
    requires Safe(b, clock) && SameDialing(b, b') && b.book.Keys <= b'.book.Keys && SameAttempts(b, b')
    requires forall p :: DialState(b', p) == DialState(b, p)
    ensures Safe(b', clock)
  {
    hide Watch, RateOk, Expected, SameAttempts;
    RateFrame(b, b', clock);
    forall p
      ensures DialState(b', p) == Expected(Watch(b'.log), p)
    {
      assert DialState(b', p) == DialState(b, p);
    }
  }

  lemma SameBookSafe(b: Book, b': Book, clock: Option<nat>)
    requires Safe(b, clock) && SameDialing(b, b') && b'.book == b.book
    ensures Safe(b', clock)
  {
    hide Safe;
    assert forall p :: DialState(b', p) == DialState(b, p);
    assert SameAttempts(b, b');
    FrameSafe(b, b', clock);
  }

  lemma MarkFrame(b: Book, x: Peer, source: Source)
    ensures SameDialing(b, MarkState(b, x, source)) && MarkState(b, x, source).book == b.book
    ensures MarkState(b, x, source).connected == b.connected && MarkState(b, x, source).local == b.local
  {
    hide Without, ViewOf, Delta;
  }

  lemma MarkIfChangedSafe(before: Option<View>, b: Book, x: Peer, source: Source, clock: Option<nat>)
    requires Safe(b, clock)
    ensures Safe(MarkIfChanged(before, b, x, source), clock)
    ensures MarkIfChanged(before, b, x, source).book == b.book && MarkIfChanged(before, b, x, source).config == b.config
  {
    hide Safe, MarkState, Current;
    MarkFrame(b, x, source);
    SameBookSafe(b, MarkState(b, x, source), clock);
  }

  /** One noted change of one peer's dial state. */
  lemma NotedDials(b: Book, b': Book, x: Peer, note: Note)
    requires DialsOk(b) && b'.log == b.log + [note]
    requires forall p | p != x :: DialState(b', p) == DialState(b, p)
    requires match note
             case Dialed(p, now, _) => p == x && DialPermitted(DialState(b, x), now) && DialState(b', x).InFlight?
             case Connected(p) => p == x && DialState(b', x).Idle?
             case Succeeded(p) => p == x && DialState(b, x).InFlight? && DialState(b', x).Idle?
             case Failed(p, until) => p == x && DialState(b', x) == Backoff(until)
             case BeaconMoved(p) => p == x && DialState(b, x).Backoff? && DialState(b', x).Idle?
             case Removed(p) => p == x && DialState(b', x).Idle?
             case ResetAll => false
    ensures DialsOk(b')
  {
    hide DialState, Watch;
    WatchSnoc(b.log, note);
    var m := Watch(b.log);
    assert DialState(b, x) == Expected(m, x);
    forall p
      ensures DialState(b', p) == Expected(Watch(b'.log), p)
    {
      assert DialState(b, p) == Expected(m, p);
    }
  }

  /** A noted change that is no mDNS dial; a removal forgets the peer's attempts. */
  lemma NotedRate(b: Book, b': Book, note: Note, clock: Option<nat>)
    requires RateOk(b, clock) && b'.log == b.log + [note] && b'.attempts == b.attempts && b'.config == b.config
    requires !(note.Dialed? && note.source.Mdns?)
    requires forall p :: AttemptsOf(b', p) == if note == Removed(p) then [] else AttemptsOf(b, p)
    ensures RateOk(b', clock)
  {
    hide RW.Inv, MdnsTimes, PeerTimes, AttemptsOf;
    MdnsTimesSnoc(b.log, note);
    assert MdnsTimes(b.log) + [] == MdnsTimes(b.log);
    if clock.Some? {
      forall p
        ensures PeerRate(b', p, clock.value)
      {
        PeerTimesSnoc(b.log, note, p);
        assert PeerRate(b, p, clock.value);
        RW.InvFresh(clock.value, b.config.window, b.config.peerLimit);
        assert AttemptsOf(b', p) == if note == Removed(p) then [] else AttemptsOf(b, p);
      }
    }
  }

  lemma ClockSafe(b: Book, clock: nat, now: nat)
    requires Safe(b, Some(clock)) && clock <= now
    ensures Safe(b, Some(now))
  {
    hide DialsOk, MdnsTimes, PeerTimes, ActionsKnown, RW.Inv;
    RW.InvLater(RW.Limiter(b.attempts, MdnsTimes(b.log), clock), now, b.config.window, b.config.globalLimit);
    forall p
      ensures PeerRate(b, p, now)
    {
      assert PeerRate(b, p, clock);
      RW.InvLater(RW.Limiter(AttemptsOf(b, p), PeerTimes(b.log, p), clock), now, b.config.window, b.config.peerLimit);
    }
  }

  // ---- removal ----

  lemma {:induction false} DropDialsFacts(actions: seq<Action>, p: Peer)
    ensures forall i | 0 <= i < |DropDials(actions, p)| :: DropDials(actions, p)[i] in actions && !IsDialTo(DropDials(actions, p)[i], p)
    ensures !DialQueued(actions, p) ==> DropDials(actions, p) == actions
  {
    if actions != [] {
      var init, last := actions[..|actions| - 1], actions[|actions| - 1];
      DropDialsFacts(init, p);
      assert actions == init + [last];
      if !DialQueued(actions, p) {
        assert !IsDialTo(actions[|actions| - 1], p);
        assert forall i | 0 <= i < |init| :: init[i] == actions[i];
      }
    }
  }

  /** Removing a peer purges its queued dials, and cancels a dial that was queued or running. */
  lemma RemovalPurges(b: Book, p: Peer)
    requires p in b.book
    ensures var r := RemovePeer(b, p);
            && !DialQueued(r.actions, p)
            && p !in r.book
            && (b.book[p].dial.InFlight? || DialQueued(b.actions, p)
                ==> r.actions != [] && r.actions[|r.actions| - 1] == CancelDial(p))
            && (!b.book[p].dial.InFlight? && !DialQueued(b.actions, p) ==> r.actions == b.actions)
  {
    hide MarkState, DropDials;
    DropDialsFacts(b.actions, p);
    MarkFrame(Unlisted(b, p), p, Mdns);
  }

  function Unlisted(b: Book, p: Peer): Book
    requires p in b.book
  {
    b.(book := b.book - {p}, actions := PurgedActions(b.actions, p, b.book[p].dial), log := b.log + [Removed(p)])
  }

  lemma PurgedKnown(b: Book, p: Peer)
    requires ActionsKnown(b) && p in b.book
    ensures ActionsKnown(Unlisted(b, p))
  {
    hide DropDials, DialQueued;
    DropDialsFacts(b.actions, p);
    var b' := Unlisted(b, p);
    forall i | 0 <= i < |b'.actions| && b'.actions[i].StartDial?
      ensures b'.actions[i].peer in b'.book
    {
      assert b'.actions[i] in b.actions;
      var j :| 0 <= j < |b.actions| && b.actions[j] == b'.actions[i];
    }
  }

  lemma RemovePeerSafe(b: Book, p: Peer, clock: Option<nat>)
    requires Safe(b, clock)
    ensures Safe(RemovePeer(b, p), clock)
  {
    hide MarkState, PurgedActions, DialsOk, RateOk, ActionsKnown;
    if p in b.book {
      var b' := Unlisted(b, p);
      PurgedKnown(b, p);
      NotedDials(b, b', p, Removed(p));
      NotedRate(b, b', Removed(p), clock);
      MarkFrame(b', p, Mdns);
      SameBookSafe(b', MarkState(b', p, Mdns), clock);
    }
  }

  lemma MakeRoomSafe(b: Book, incoming: Peer, source: Source, clock: Option<nat>)
    requires Safe(b, clock)
    ensures Safe(MakeRoom(b, incoming, source).1, clock)
  {
    hide Safe, RemovePeer, IsVictim;
    forall c
      ensures Safe(RemovePeer(b, c), clock)
    {
      RemovePeerSafe(b, c, clock);
    }
  }

  // ---- dialing ----

  lemma AppendKnown(b: Book, b': Book, a: Action)
    requires ActionsKnown(b) && b.book.Keys <= b'.book.Keys && b'.actions == b.actions + [a]
    requires a.StartDial? ==> a.peer in b'.book
    ensures ActionsKnown(b')
  {
  }

  lemma DialRate(b: Book, p: Peer, source: Source, now: nat, clock: Option<nat>)
    requires RateOk(b, clock) && At(clock, now) && MayDial(b, p, source, now)
    ensures RateOk(MaybeDial(b, p, source, now), clock)
  {
    if clock.Some? {
      GlobalDialRate(b, p, source, now);
      forall q
        ensures PeerRate(MaybeDial(b, p, source, now), q, now)
      {
        assert PeerRate(b, q, now);
        PeerDialRate(b, p, source, now, q);
      }
    }
    hide GlobalRate, PeerRate, MaybeDial;
  }

  lemma GlobalDialRate(b: Book, p: Peer, source: Source, now: nat)
    requires GlobalRate(b, now) && now < U64_MAX && MayDial(b, p, source, now)
    ensures GlobalRate(MaybeDial(b, p, source, now), now)
  {
    hide ViewOf, MdnsTimes, RW.Inv, RW.Charge, RW.Allows;
    MdnsTimesSnoc(b.log, Dialed(p, now, source));
    if source.Mdns? {
      RW.RequestInv(RW.Limiter(b.attempts, MdnsTimes(b.log), now), now, b.config.window, b.config.globalLimit);
    } else {
      assert MdnsTimes(b.log) + [] == MdnsTimes(b.log);
    }
  }

  lemma PeerDialRate(b: Book, p: Peer, source: Source, now: nat, q: Peer)
    requires PeerRate(b, q, now) && now < U64_MAX && MayDial(b, p, source, now)
    ensures PeerRate(MaybeDial(b, p, source, now), q, now)
  {
    hide ViewOf, PeerTimes, RW.Inv, RW.Charge, RW.Allows;
    PeerTimesSnoc(b.log, Dialed(p, now, source), q);
    if source.Mdns? && q == p {
      RW.RequestInv(RW.Limiter(AttemptsOf(b, p), PeerTimes(b.log, p), now), now, b.config.window, b.config.peerLimit);
    }
  }

  lemma MaybeDialSafe(b: Book, p: Peer, source: Source, now: nat, clock: Option<nat>)
    requires Safe(b, clock) && At(clock, now)
    ensures Safe(MaybeDial(b, p, source, now), clock)
  {
    hide ViewOf, DialsOk, RateOk, ActionsKnown, RW.Charge, RW.Allows;
    if MayDial(b, p, source, now) {
      DialRate(b, p, source, now, clock);
      var b' := MaybeDial(b, p, source, now);
      NotedDials(b, b', p, Dialed(p, now, source));
      AppendKnown(b, b', StartDial(p, ViewOf(b.config, b.book[p]).merged, source));
    }
  }

  // ---- observations ----

  lemma InsertBeaconSafe(b: Book, p: Peer, addrs: seq<Addr>, now: nat, clock: Option<nat>)
    requires Safe(b, clock) && At(clock, now)
    ensures Safe(InsertBeacon(b, p, addrs, now), clock)
  {
    hide Safe, BeaconChanged, MarkIfChanged, MaybeDial, Current;
    var e := EntryOf(b, p);
    var moved := if BeaconChanged(e, addrs) && e.dial.Backoff? then [BeaconMoved(p)] else [];
    var b1 := b.(book := b.book[p := WithBeacon(e, addrs, now)], log := b.log + moved);
    BeaconSafe(b, p, addrs, now, clock);
    MarkIfChangedSafe(Current(b, p), b1, p, SignedBeacon, clock);
    MaybeDialSafe(MarkIfChanged(Current(b, p), b1, p, SignedBeacon), p, SignedBeacon, now, clock);
  }

  lemma BeaconSafe(b: Book, p: Peer, addrs: seq<Addr>, now: nat, clock: Option<nat>)
    requires Safe(b, clock)
    ensures var e := EntryOf(b, p);
            var moved := if BeaconChanged(e, addrs) && e.dial.Backoff? then [BeaconMoved(p)] else [];
            Safe(b.(book := b.book[p := WithBeacon(e, addrs, now)], log := b.log + moved), clock)
  {
    hide BeaconChanged, DialsOk, RateOk, ActionsKnown;
    var e := EntryOf(b, p);
    var b1 := b.(book := b.book[p := WithBeacon(e, addrs, now)]);
    if BeaconChanged(e, addrs) && e.dial.Backoff? {
      var b2 := b1.(log := b.log + [BeaconMoved(p)]);
      NotedDials(b, b2, p, BeaconMoved(p));
      NotedRate(b, b2, BeaconMoved(p), clock);
      SameActionsKnown(b, b2);
    } else {
      assert b.log + [] == b.log;
      assert SameAttempts(b, b1);
      FrameSafe(b, b1, clock);
    }
  }

  lemma SameActionsKnown(b: Book, b': Book)
    requires ActionsKnown(b) && b.book.Keys <= b'.book.Keys && b'.actions == b.actions
    ensures ActionsKnown(b')
  {
  }

  lemma ObserveBeaconSafe(b: Book, p: Peer, addrs: seq<Option<Addr>>, now: nat, clock: Option<nat>)
    requires Safe(b, clock) && At(clock, now)
    ensures Safe(ObserveBeacon(b, p, addrs, now), clock)
  {
    hide Safe, MakeRoom, InsertBeacon, Normalize;
    var as_ := Normalize(addrs, [], b.config.maxAddrs);
    InsertBeaconSafe(b, p, as_, now, clock);
    MakeRoomSafe(b, p, SignedBeacon, clock);
    InsertBeaconSafe(MakeRoom(b, p, SignedBeacon).1, p, as_, now, clock);
  }

  lemma {:induction false} ClaimsKeepDial(e: Entry, claims: seq<(Addr, nat)>, now: nat, c: Config)
    ensures ApplyClaims(e, claims, now, c).dial == e.dial && ApplyClaims(e, claims, now, c).attempts == e.attempts
  {
    hide IsSoonest, Without;
    if claims != [] {
      ClaimsKeepDial(e, claims[..|claims| - 1], now, c);
    }
  }

  lemma InsertClaimsSafe(b: Book, p: Peer, claims: seq<(Addr, nat)>, now: nat, clock: Option<nat>)
    requires Safe(b, clock) && At(clock, now)
    ensures Safe(InsertClaims(b, p, claims, now), clock)
  {
    hide Safe, ApplyClaims, MarkIfChanged, MaybeDial, Current, RemovePeer, IsEmpty, HasPositive;
    var b1 := b.(book := b.book[p := ApplyClaims(EntryOf(b, p), claims, now, b.config)]);
    ClaimsKeepDial(EntryOf(b, p), claims, now, b.config);
    assert forall q :: DialState(b1, q) == DialState(b, q);
    assert SameAttempts(b, b1);
    FrameSafe(b, b1, clock);
    RemovePeerSafe(b1, p, clock);
    MarkIfChangedSafe(Current(b, p), b1, p, Mdns, clock);
    MaybeDialSafe(MarkIfChanged(Current(b, p), b1, p, Mdns), p, Mdns, now, clock);
  }

  lemma ObserveMdnsSafe(b: Book, p: Peer, claims: seq<(Option<Addr>, nat)>, now: nat, clock: Option<nat>)
    requires Safe(b, clock) && At(clock, now)
    ensures Safe(ObserveMdns(b, p, claims, now), clock)
  {
    hide Safe, MakeRoom, InsertClaims, Accepted, HasPositive;
    var accepted := Accepted(claims);
    InsertClaimsSafe(b, p, accepted, now, clock);
    MakeRoomSafe(b, p, Mdns, clock);
    InsertClaimsSafe(MakeRoom(b, p, Mdns).1, p, accepted, now, clock);
  }

  // ---- results, reset, expiry ----

  lemma SetDialSafe(b: Book, b': Book, p: Peer, note: Note, clock: Option<nat>)
    requires Safe(b, clock) && p in b.book && b'.log == b.log + [note]
    requires b'.actions == b.actions && b'.attempts == b.attempts && b'.config == b.config
    requires p in b'.book && b'.book == b.book[p := b.book[p].(dial := b'.book[p].dial)]
    requires match note
             case Connected(q) => q == p && b'.book[p].dial.Idle?
             case Succeeded(q) => q == p && b.book[p].dial.InFlight? && b'.book[p].dial.Idle?
             case Failed(q, until) => q == p && b'.book[p].dial == Backoff(until)
             case _ => false
    ensures Safe(b', clock)
  {
    hide DialsOk, RateOk, ActionsKnown;
    NotedDials(b, b', p, note);
    NotedRate(b, b', note, clock);
    SameActionsKnown(b, b');
  }

  lemma ConnectionSafe(b: Book, p: Peer, clock: Option<nat>)
    requires Safe(b, clock)
    ensures Safe(PeerConnected(b, p), clock) && Safe(PeerDisconnected(b, p), clock) && Safe(DialSucceeded(b, p), clock)
  {
    hide Safe;
    SameBookSafe(b, b.(connected := b.connected + {p}), clock);
    SameBookSafe(b, b.(connected := b.connected - {p}), clock);
    if p in b.book {
      SetDialSafe(b, PeerConnected(b, p), p, Connected(p), clock);
      if b.book[p].dial.InFlight? {
        SetDialSafe(b, DialSucceeded(b, p), p, Succeeded(p), clock);
      }
    }
  }

  lemma DialFailedSafe(b: Book, p: Peer, reason: string, now: nat, clock: Option<nat>)
    requires Safe(b, clock)
    ensures Safe(DialFailedWith(b, p, reason, now), clock)
  {
    hide Safe;
    if p in b.book && b.book[p].dial.InFlight? {
      var until := SatAdd(now, b.config.redialBackoff);
      var b1 := SetDial(b, p, Backoff(until)).(log := b.log + [Failed(p, until)]);
      SetDialSafe(b, b1, p, Failed(p, until), clock);
      SameBookSafe(b1, DialFailedWith(b, p, reason, now), clock);
    }
  }

  lemma ResetDialsSafe(b: Book, clock: Option<nat>)
    requires Safe(b, clock)
    ensures Safe(ResetDials(b), clock)
  {
    hide Watch, RateOk;
    var b' := ResetDials(b);
    assert SameAttempts(b, b');
    NotedRate(b, b', ResetAll, clock);
    WatchSnoc(b.log, ResetAll);
    forall p
      ensures DialState(b', p) == Expected(Watch(b'.log), p)
    {
      assert DialState(b, p) == Expected(Watch(b.log), p);
    }
  }

  lemma ExpireOneSafe(b: Book, p: Peer, now: nat, clock: Option<nat>)
    requires Safe(b, clock)
    ensures Safe(ExpireOne(b, p, now), clock)
  {
    hide Safe, MarkIfChanged, Current, RemovePeer, IsEmpty, BeaconDue, MdnsDue, KeepFresh;
    if p in b.book {
      var b1 := b.(book := b.book[p := Expire(b.book[p], now, b.config)]);
      assert forall q :: DialState(b1, q) == DialState(b, q);
      assert SameAttempts(b, b1);
      FrameSafe(b, b1, clock);
      RemovePeerSafe(b1, p, clock);
      MarkIfChangedSafe(Current(b, p), b1, p, if BeaconDue(b.book[p], now, b.config) then SignedBeacon else Mdns, clock);
    }
  }

  lemma {:induction false} TickSafe(b: Book, peers: seq<Peer>, now: nat, clock: Option<nat>)
    requires Safe(b, clock)
    ensures Safe(Tick(b, peers, now), clock)
  {
    hide Safe, ExpireOne;
    if peers != [] {
      TickSafe(b, peers[..|peers| - 1], now, clock);
      ExpireOneSafe(Tick(b, peers[..|peers| - 1], now), peers[|peers| - 1], now, clock);
    }
  }

  lemma PollActionSafe(b: Book, clock: Option<nat>)
    requires Safe(b, clock)
    ensures Safe(PollAction(b).0, clock)
  {
    hide DialsOk, RateOk;
    var b' := PollAction(b).0;
    assert DialsOk(b') by {
      DialsFrame(b, b');
    }
    assert SameAttempts(b, b');
    RateFrame(b, b', clock);
  }

  lemma DialsFrame(b: Book, b': Book)
    requires DialsOk(b) && b'.log == b.log && b'.book == b.book
    ensures DialsOk(b')
  {
    hide Watch;
    forall p
      ensures DialState(b', p) == Expected(Watch(b'.log), p)
    {
      assert DialState(b, p) == Expected(Watch(b.log), p);
    }
  }

  /**
   A beacon with other addresses overrides a backoff: the peer is dialed at once, deadline or
   not, wherever dialing is allowed at all.
   */
  lemma BeaconChangeRedials(b: Book, p: Peer, addrs: seq<Option<Addr>>, now: nat)
    requires p in b.book && p != b.local && b.book[p].dial.Backoff? && ValidConfig(b.config)
    requires b.config.autoDial && p !in b.connected && (b.config.tieBreak ==> b.local < p)
    requires var as_ := Normalize(addrs, [], b.config.maxAddrs); as_ != [] && BeaconChanged(b.book[p], as_)
    ensures var r := ObserveBeacon(b, p, addrs, now);
            && p in r.book && r.book[p].dial.InFlight?
            && r.actions != [] && IsDialTo(r.actions[|r.actions| - 1], p)
  {
    hide Normalize, MarkState, Current, BeaconChanged, Merge;
    var as_ := Normalize(addrs, [], b.config.maxAddrs);
    var b1 := b.(book := b.book[p := WithBeacon(b.book[p], as_, now)], log := b.log + [BeaconMoved(p)]);
    MarkFrame(b1, p, SignedBeacon);
    BeaconShows(b.config, WithBeacon(b.book[p], as_, now), as_);
  }

  /** An entry with announced addresses has something to dial. */
  lemma {:induction false} BeaconShows(c: Config, e: Entry, addrs: seq<Addr>)
    requires c.maxAddrs > 0 && BeaconAddrs(e) == addrs != []
    ensures ViewOf(c, e).merged != []
  {
    hide Merge;
    MergeGrows(addrs, e.mdnsOrder);
  }

  lemma {:induction false} MergeGrows(first: seq<Addr>, second: seq<Addr>)
    ensures |Merge(first, second)| >= |first|
  {
    if second != [] {
      MergeGrows(first, second[..|second| - 1]);
    }
  }

  // ---- runs ----

  /** The time an operation that may dial reads. */
  function TimeOf(op: Runs.Op): Option<nat> {
    match op
    case Beaconed(_, _, now) => Some(now)
    case Claimed(_, _, now) => Some(now)
    case _ => None
  }

  function ClockAfter(clock: nat, op: Runs.Op): nat {
    if TimeOf(op).Some? then TimeOf(op).value else clock
  }

  /** The clock of a run that ends with `ops`; it never runs backwards and stays below its last value. */
  predicate Timely(ops: seq<Runs.Op>) {
    ops == [] || (Timely(ops[..|ops| - 1]) && Clock(ops[..|ops| - 1]) <= Clock(ops) < U64_MAX)
  }

  function Clock(ops: seq<Runs.Op>): nat {
    if ops == [] then 0 else ClockAfter(Clock(ops[..|ops| - 1]), ops[|ops| - 1])
  }

  lemma DoSafe(b: Book, op: Runs.Op, clock: Option<nat>)
    requires Safe(b, clock) && (TimeOf(op).Some? ==> At(clock, TimeOf(op).value))
    ensures Safe(Runs.Do(b, op), clock)
  {
    hide Safe, ObserveBeacon, ObserveMdns, DialFailedWith, Tick, PollEvent, PollAction, PeerConnected, DialSucceeded, ResetDials;
    match op
    case Beaconed(p, addrs, now) => ObserveBeaconSafe(b, p, addrs, now, clock);
    case Claimed(p, claims, now) => ObserveMdnsSafe(b, p, claims, now, clock);
    case Connect(p) => ConnectionSafe(b, p, clock);
    case Disconnect(p) => ConnectionSafe(b, p, clock);
    case Success(p) => ConnectionSafe(b, p, clock);
    case Failure(p, reason, now) => DialFailedSafe(b, p, reason, now, clock);
    case Reset => ResetDialsSafe(b, clock);
    case Ticked(peers, now) => TickSafe(b, peers, now, clock);
    case Violated(p, source, reason) => SameBookSafe(b, Runs.Do(b, op), clock);
    case PolledAction => PollActionSafe(b, clock);
    case PolledEvent => Runs.PollKnown(b); SameBookSafe(b, PollEvent(b).0, clock);
  }

  lemma {:induction false} RunSafe(local: Peer, config: Config, ops: seq<Runs.Op>)
    ensures Safe(Runs.Run(New(local, config), ops), None)
    ensures Timely(ops) ==> Safe(Runs.Run(New(local, config), ops), Some(Clock(ops)))
  {
    hide Safe, Runs.Do;
    if ops == [] {
      NewSafe(local, config);
    } else {
      var init, op := ops[..|ops| - 1], ops[|ops| - 1];
      var b := Runs.Run(New(local, config), init);
      RunSafe(local, config, init);
      DoSafe(b, op, None);
      if Timely(ops) {
        ClockSafe(b, Clock(init), Clock(ops));
        DoSafe(b, op, Some(Clock(ops)));
      }
    }
  }

  lemma NewSafe(local: Peer, config: Config)
    ensures Safe(New(local, config), None) && Safe(New(local, config), Some(0))
  {
    hide RW.Inv;
    RW.InvFresh(0, config.window, config.globalLimit);
    RW.InvFresh(0, config.window, config.peerLimit);
    assert forall p :: PeerRate(New(local, config), p, 0);
  }

  /**
   In every run a peer is dialed again only after a connect, success, failure, reset or
   removal, and after a failure only from its backoff deadline on unless the peer
   connected, was removed, or announced other beacon addresses; and every queued dial is
   to a peer in the book.
   */
  lemma DialsAreDisciplined(local: Peer, config: Config, ops: seq<Runs.Op>)
    ensures var b := Runs.Run(New(local, config), ops);
            && Watch(b.log).legal
            && ActionsKnown(b)
            && forall p | p in b.book :: b.book[p].dial == Expected(Watch(b.log), p)
  {
    RunSafe(local, config, ops);
    var b := Runs.Run(New(local, config), ops);
    hide Runs.Run, Watch, Expected;
    assert forall p | p in b.book :: DialState(b, p) == b.book[p].dial;
  }

  /** Every interval of the window's length holds at most the global limit of mDNS dials. */
  lemma MdnsDialsAreLimited(local: Peer, config: Config, ops: seq<Runs.Op>, from: nat)
    requires Timely(ops)
    ensures var times := MdnsTimes(Runs.Run(New(local, config), ops).log);
            RW.CountIn(times, from, from + config.window) <= config.globalLimit
  {
    RunSafe(local, config, ops);
    Runs.RunConfig(New(local, config), ops);
    var times := MdnsTimes(Runs.Run(New(local, config), ops).log);
    hide Runs.Run, MdnsTimes, RW.CountIn, RW.Refines;
    assert RW.InWindow(times, from, config.window) <= config.globalLimit;
  }

  /** From one removal of a peer to the next, every interval holds at most the peer limit of its mDNS dials. */
  lemma PeerDialsAreLimited(local: Peer, config: Config, ops: seq<Runs.Op>, p: Peer, from: nat)
    requires Timely(ops)
    ensures var times := PeerTimes(Runs.Run(New(local, config), ops).log, p);
            RW.CountIn(times, from, from + config.window) <= config.peerLimit
  {
    RunSafe(local, config, ops);
    Runs.RunConfig(New(local, config), ops);
    var b := Runs.Run(New(local, config), ops);
    hide Runs.Run, PeerTimes, RW.CountIn, RW.Refines;
    assert PeerRate(b, p, Clock(ops));
    assert RW.InWindow(PeerTimes(b.log, p), from, config.window) <= config.peerLimit;
  }

  // ---- a removal forgets the peer's window ----

  /** An unknown peer for which there is room and which may be dialed now. */
  predicate Welcome(b: Book, p: Peer, now: nat) {
    && p != b.local && p !in b.book && |b.book| < b.config.maxKnownPeers && ValidConfig(b.config)
    && b.config.autoDial && p !in b.connected && (b.config.tieBreak ==> b.local < p)
    && RW.Allows(b.attempts, now, b.config.window, b.config.globalLimit)
  }

  function Claimant(a: Addr, ttl: nat, now: nat, c: Config, dial: Dial, attempts: seq<nat>): Entry {
    Entry(None, map[a := RecordFor(ttl, now, c)], [a], dial, attempts)
  }

  lemma OneClaim(e: Entry, a: Addr, ttl: nat, now: nat, c: Config)
    ensures Accepted([(Some(a), ttl)]) == [(a, ttl)]
    ensures ApplyClaims(e, [(a, ttl)], now, c) == ApplyClaim(e, a, ttl, now, c)
  {
    var claims := [(a, ttl)];
    assert claims[..0] == [];
    assert [(Some(a), ttl)][..0] == [] && [] + claims == claims;
  }

  lemma FirstClaim(a: Addr, ttl: nat, now: nat, c: Config)
    requires ttl > 0 && c.maxAddrs > 0
    ensures ApplyClaim(NO_ENTRY, a, ttl, now, c) == Claimant(a, ttl, now, c, Idle, [])
    ensures ViewOf(c, Claimant(a, ttl, now, c, Idle, [])).merged != []
  {
    assert [] + [a] == [a];
    assert map[][a := RecordFor(ttl, now, c)] == map[a := RecordFor(ttl, now, c)];
    assert [a][..0] == [];
    assert Merge([], []) == [];
    assert Merge([], [a]) == [a];
  }

  /** A claim of an unknown peer is dialed whatever was dialed before its last removal. */
  lemma NewPeerIsDialed(b: Book, p: Peer, a: Addr, ttl: nat, now: nat)
    requires Welcome(b, p, now) && ttl > 0
    ensures var r := ObserveMdns(b, p, [(Some(a), ttl)], now);
            && r.log == b.log + [Dialed(p, now, Mdns)] && r.config == b.config && r.local == b.local && r.connected == b.connected
            && r.book == b.book[p := Claimant(a, ttl, now, b.config, InFlight, [now])]
            && r.attempts == RW.Charge(b.attempts, now, b.config.window)
  {
    hide MarkState, ViewOf, RecordFor, ApplyClaims, Accepted, RW.Charge, RW.Allows, Current;
    OneClaim(NO_ENTRY, a, ttl, now, b.config);
    FirstClaim(a, ttl, now, b.config);
    var e := Claimant(a, ttl, now, b.config, Idle, []);
    var b1 := b.(book := b.book[p := e]);
    MarkFrame(b1, p, Mdns);
    EmptyWindow(now, b.config.window, b.config.peerLimit);
    assert [(a, ttl)][0].1 > 0;
    assert !IsEmpty(e) by {
      assert a in e.mdns.Keys;
    }
    DialFresh(MarkIfChanged(Current(b, p), b1, p, Mdns), p, now, e);
  }

  lemma DialFresh(b: Book, p: Peer, now: nat, e: Entry)
    requires p in b.book && b.book[p] == e && e.dial.Idle? && e.attempts == [] && MayDial(b, p, Mdns, now)
    ensures var r := MaybeDial(b, p, Mdns, now);
            && r.log == b.log + [Dialed(p, now, Mdns)] && r.config == b.config && r.local == b.local && r.connected == b.connected
            && r.book == b.book[p := e.(dial := InFlight, attempts := [now])]
            && r.attempts == RW.Charge(b.attempts, now, b.config.window)
  {
    hide ViewOf, RW.Allows;
    EmptyWindow(now, b.config.window, b.config.peerLimit);
  }

  lemma EmptyWindow(now: nat, window: nat, limit: nat)
    ensures RW.Allows([], now, window, limit) <==> limit > 0
    ensures RW.Charge([], now, window) == [now]
  {
    assert [] + [now] == [now];
  }

  /** Withdrawing its only address removes the peer. */
  lemma WithdrawnIsRemoved(b: Book, p: Peer, a: Addr, ttl: nat, then_: nat, now: nat)
    requires p != b.local && p in b.book && b.book[p] == Claimant(a, ttl, then_, b.config, InFlight, b.book[p].attempts)
    ensures var r := ObserveMdns(b, p, [(Some(a), 0)], now);
            && r.log == b.log + [Removed(p)] && r.config == b.config && r.local == b.local && r.connected == b.connected
            && r.book == b.book - {p} && r.attempts == b.attempts
  {
    hide MarkState, ViewOf, RecordFor, ApplyClaims, Accepted, PurgedActions;
    var e := b.book[p];
    OneClaim(e, a, 0, now, b.config);
    var e' := ApplyClaim(e, a, 0, now, b.config);
    assert e'.mdns == map[];
    assert IsEmpty(e');
    var b1 := b.(book := b.book[p := e']);
    MarkFrame(Unlisted(b1, p), p, Mdns);
    assert b1.book - {p} == b.book - {p};
  }

  /**
   Removal forgets the window: a claim, its withdrawal and the same claim again dial the peer
   twice at one instant, whatever the peer limit, as far as the global limit reaches.
   */
  lemma RemovalForgetsWindow(b: Book, p: Peer, a: Addr, ttl: nat, now: nat)
    requires Welcome(b, p, now) && ttl > 0
    requires RW.Allows(RW.Charge(b.attempts, now, b.config.window), now, b.config.window, b.config.globalLimit)
    ensures var r := Runs.Run(b, [Runs.Claimed(p, [(Some(a), ttl)], now), Runs.Claimed(p, [(Some(a), 0)], now),
                                  Runs.Claimed(p, [(Some(a), ttl)], now)]);
            r.log == b.log + [Dialed(p, now, Mdns), Removed(p), Dialed(p, now, Mdns)]
  {
    hide ObserveMdns, RW.Charge, RW.Allows, ValidConfig, RecordFor;
    var claim, withdrawal := [(Some(a), ttl)], [(Some(a), 0)];
    NewPeerIsDialed(b, p, a, ttl, now);
    var b1 := ObserveMdns(b, p, claim, now);
    WithdrawnIsRemoved(b1, p, a, ttl, now, now);
    var b2 := ObserveMdns(b1, p, withdrawal, now);
    assert b2.book == b.book;
    NewPeerIsDialed(b2, p, a, ttl, now);
    ThreeOps(b, Runs.Claimed(p, claim, now), Runs.Claimed(p, withdrawal, now), Runs.Claimed(p, claim, now));
    assert b.log + [Dialed(p, now, Mdns)] + [Removed(p)] + [Dialed(p, now, Mdns)]
        == b.log + [Dialed(p, now, Mdns), Removed(p), Dialed(p, now, Mdns)];
  }

  lemma ThreeOps(b: Book, x: Runs.Op, y: Runs.Op, z: Runs.Op)
    ensures Runs.Run(b, [x, y, z]) == Runs.Do(Runs.Do(Runs.Do(b, x), y), z)
  {
    hide Runs.Do;
    assert [x, y, z][..2] == [x, y] && [x, y][..1] == [x] && [x][..0] == [];
    assert Runs.Run(b, [x]) == Runs.Do(Runs.Run(b, []), x);
    assert Runs.Run(b, [x, y]) == Runs.Do(Runs.Run(b, [x]), y);
  }
}
