/**
 Bounds and well-formedness of the peer book over whole runs, exact expiry and eviction
 (crates/discovery/src/book.rs).
 */
module PeerBookEntries {
  import opened Bytes
  import opened Sequences
  import opened PeerBook
  import opened Q = PeerBookQueue
  import Runs = PeerBookRuns
  import D = PeerBookDials

  // ---- entries ----

  /** `mdns_order` lists the mDNS records once each; both sources respect the address cap. */
  ghost predicate Sourced(c: Config, e: Entry) {
    && NoDuplicates(e.mdnsOrder) && (forall a :: a in e.mdnsOrder <==> a in e.mdns)
    && |e.mdns| <= c.maxAddrs
    && NoDuplicates(BeaconAddrs(e)) && |BeaconAddrs(e)| <= c.maxAddrs
  }

  ghost predicate EntryOk(c: Config, e: Entry) {
    Sourced(c, e) && !IsEmpty(e)
  }

  lemma {:induction false} NormalizeFacts(addrs: seq<Option<Addr>>, done: seq<Addr>, cap: nat)
    requires NoDuplicates(done) && |done| < cap
    ensures NoDuplicates(Normalize(addrs, done, cap)) && |Normalize(addrs, done, cap)| <= cap
    decreases |addrs|
  {
    if addrs != [] {
      if addrs[0].None? || addrs[0].value in done {
        NormalizeFacts(addrs[1..], done, cap);
      } else if |done| + 1 != cap {
        NormalizeFacts(addrs[1..], done + [addrs[0].value], cap);
      }
    }
  }

  lemma DropSize(m: map<Addr, Record>, a: Addr)
    requires a in m
    ensures |m - {a}| == |m| - 1
  {
    assert m.Keys == (m - {a}).Keys + {a};
  }

  lemma AddSize(m: map<Addr, Record>, a: Addr, r: Record)
    ensures |m[a := r]| == if a in m then |m| else |m| + 1
  {
    assert m[a := r].Keys == m.Keys + {a};
  }

  lemma DropSourced(c: Config, e: Entry, a: Addr)
    requires Sourced(c, e) && a in e.mdns
    ensures Sourced(c, DropAddr(e, a)) && |DropAddr(e, a).mdns| == |e.mdns| - 1
  {
    hide Without;
    WithoutFacts(e.mdnsOrder, a);
    DropSize(e.mdns, a);
  }

  lemma AddSourced(c: Config, e: Entry, a: Addr, r: Record)
    requires Sourced(c, e) && a !in e.mdns && |e.mdns| < c.maxAddrs
    ensures Sourced(c, AddAddr(e, a, r))
  {
    AddSize(e.mdns, a, r);
    assert a !in e.mdnsOrder;
  }

  lemma RefreshSourced(c: Config, e: Entry, a: Addr, r: Record)
    requires Sourced(c, e) && a in e.mdns
    ensures Sourced(c, e.(mdns := e.mdns[a := r]))
  {
    AddSize(e.mdns, a, r);
  }

  lemma ClaimSourced(c: Config, e: Entry, a: Addr, ttl: nat, now: nat)
    requires Sourced(c, e)
    ensures Sourced(c, ApplyClaim(e, a, ttl, now, c))
  {
    hide Sourced, DropAddr, AddAddr;
    var r := RecordFor(ttl, now, c);
    if a in e.mdns {
      DropSourced(c, e, a);
      RefreshSourced(c, e, a, r);
    } else if |e.mdns| != c.maxAddrs {
      SourcedSize(c, e);
      AddSourced(c, e, a, r);
    } else if e.mdns.Keys != {} {
      var soonest := Soonest(e.mdns);
      DropSourced(c, e, soonest);
      Dropped(e, a, soonest);
      AddSourced(c, DropAddr(e, soonest), a, r);
    }
  }

  lemma SourcedSize(c: Config, e: Entry)
    requires Sourced(c, e)
    ensures |e.mdns| <= c.maxAddrs
  {
  }

  lemma Dropped(e: Entry, a: Addr, x: Addr)
    requires a !in e.mdns
    ensures a !in DropAddr(e, x).mdns
  {
  }

  lemma {:induction false} ClaimsSourced(c: Config, e: Entry, claims: seq<(Addr, nat)>, now: nat)
    requires Sourced(c, e)
    ensures Sourced(c, ApplyClaims(e, claims, now, c))
  {
    hide Sourced, ApplyClaim;
    if claims != [] {
      var n := |claims| - 1;
      ClaimsSourced(c, e, claims[..n], now);
      ClaimSourced(c, ApplyClaims(e, claims[..n], now, c), claims[n].0, claims[n].1, now);
    }
  }

  lemma {:induction false} KeepFreshFacts(e: Entry, order: seq<Addr>, now: nat)
    ensures forall a :: a in KeepFresh(e, order, now) <==> a in order && !RecordDue(e, a, now)
    ensures NoDuplicates(order) ==> NoDuplicates(KeepFresh(e, order, now))
  {
    hide RecordDue;
    if order != [] {
      var init, last := order[..|order| - 1], order[|order| - 1];
      KeepFreshFacts(e, init, now);
      assert order == init + [last];
      if NoDuplicates(order) {
        assert last !in init;
        assert last !in KeepFresh(e, init, now);
      }
    }
  }

  lemma {:induction false} KeepFreshAll(e: Entry, order: seq<Addr>, now: nat)
    requires forall i | 0 <= i < |order| :: !RecordDue(e, order[i], now)
    ensures KeepFresh(e, order, now) == order
  {
    hide RecordDue;
    if order != [] {
      KeepFreshAll(e, order[..|order| - 1], now);
      assert order == order[..|order| - 1] + [order[|order| - 1]];
    }
  }

  lemma ExpireSourced(c: Config, e: Entry, now: nat)
    requires Sourced(c, e)
    ensures Sourced(c, Expire(e, now, c))
  {
    hide KeepFresh;
    KeepFreshFacts(e, e.mdnsOrder, now);
    assert Expire(e, now, c).mdns.Keys <= e.mdns.Keys;
    SubsetSize(Expire(e, now, c).mdns.Keys, e.mdns.Keys);
  }

  lemma SubsetSize(a: set<nat>, b: set<nat>)
    requires a <= b
    ensures |a| <= |b|
  {
    assert b == a + (b - a);
  }

  /** Merged addresses are distinct and capped. */
  lemma ViewBounded(c: Config, e: Entry)
    requires Sourced(c, e)
    ensures NoDuplicates(ViewOf(c, e).merged) && |ViewOf(c, e).merged| <= c.maxAddrs
  {
    hide Merge;
    MergeDistinct(BeaconAddrs(e), e.mdnsOrder);
  }

  lemma {:induction false} MergeDistinct(first: seq<Addr>, second: seq<Addr>)
    requires NoDuplicates(first)
    ensures NoDuplicates(Merge(first, second))
    ensures forall a :: a in Merge(first, second) <==> a in first || a in second
    ensures first <= Merge(first, second)
  {
    if second != [] {
      var init, last := second[..|second| - 1], second[|second| - 1];
      MergeDistinct(first, init);
      assert second == init + [last];
    }
  }

  // ---- the book ----

  ghost predicate BookOk(b: Book) {
    && b.local !in b.book
    && |b.book| <= b.config.maxKnownPeers
    && forall p | p in b.book :: EntryOk(b.config, b.book[p])
  }

  lemma SetOk(b: Book, b': Book, p: Peer, e: Entry)
    requires BookOk(b) && b'.config == b.config && b'.local == b.local && b'.book == b.book[p := e]
    requires EntryOk(b.config, e) && p != b.local && (p in b.book || |b.book| < b.config.maxKnownPeers)
    ensures BookOk(b')
  {
    hide EntryOk;
    assert b'.book.Keys == b.book.Keys + {p};
  }

  lemma RemovedSize(b: Book, p: Peer)
    requires p in b.book
    ensures |b.book - {p}| == |b.book| - 1
  {
    assert b.book.Keys == (b.book - {p}).Keys + {p};
  }

  lemma RemoveOk(b: Book, b': Book, p: Peer)
    requires BookOk(b) && b'.config == b.config && b'.local == b.local && b'.book - {p} == b.book - {p}
    ensures BookOk(RemovePeer(b', p).(book := b.book - {p}))
    ensures p in b'.book ==> BookOk(RemovePeer(b', p)) && RemovePeer(b', p).book == b.book - {p}
  {
    hide EntryOk, MarkState, PurgedActions;
    RemovedBook(b', p);
    Runs.RemovePeerReported(b', p);
    SubsetSize((b.book - {p}).Keys, b.book.Keys);
  }

  lemma RemovedBook(b: Book, p: Peer)
    ensures RemovePeer(b, p).book == b.book - {p}
  {
    hide MarkState, PurgedActions;
    if p in b.book {
      D.MarkFrame(D.Unlisted(b, p), p, Mdns);
    }
  }

  lemma EvictOk(b: Book, p: Peer, c: Peer)
    requires BookOk(b) && p !in b.book && c in b.book
    ensures BookOk(RemovePeer(b, c)) && p !in RemovePeer(b, c).book && |RemovePeer(b, c).book| < b.config.maxKnownPeers
  {
    hide EntryOk, RemovePeer;
    RemoveOk(b, b, c);
    RemovedSize(b, c);
  }

  lemma MakeRoomOk(b: Book, p: Peer, source: Source)
    requires BookOk(b) && p !in b.book
    ensures var room := MakeRoom(b, p, source);
            BookOk(room.1) && p !in room.1.book && (room.0 ==> |room.1.book| < b.config.maxKnownPeers)
  {
    hide BookOk, RemovePeer, Worse;
    match Victim(b, source)
    case None =>
    case Some(c) => EvictOk(b, p, c);
  }

  lemma SameBookOk(b: Book, b': Book)
    requires BookOk(b) && b'.book == b.book && b'.config == b.config && b'.local == b.local
    ensures BookOk(b')
  {
  }

  lemma MarkIfChangedOk(before: Option<View>, b: Book, x: Peer, source: Source)
    requires BookOk(b)
    ensures BookOk(MarkIfChanged(before, b, x, source))
  {
    hide BookOk, MarkState, Current;
    D.MarkFrame(b, x, source);
    SameBookOk(b, MarkState(b, x, source));
  }

  lemma MaybeDialOk(b: Book, p: Peer, source: Source, now: nat)
    requires BookOk(b)
    ensures BookOk(MaybeDial(b, p, source, now))
  {
    hide MayDial, ViewOf, RW.Charge;
    if MayDial(b, p, source, now) {
      MayDialKnown(b, p, source, now);
      var b' := MaybeDial(b, p, source, now);
      assert EntryOk(b.config, b.book[p]);
      DialingOk(b.config, b.book[p], b'.book[p]);
      SetOk(b, b', p, b'.book[p]);
    }
  }

  lemma DialingOk(c: Config, e: Entry, e': Entry)
    requires EntryOk(c, e) && SameRecords(e, e')
    ensures EntryOk(c, e')
  {
  }

  lemma BeaconOk(c: Config, e: Entry, addrs: seq<Addr>, now: nat)
    requires Sourced(c, e) && NoDuplicates(addrs) && |addrs| <= c.maxAddrs
    ensures EntryOk(c, WithBeacon(e, addrs, now))
  {
    hide BeaconChanged;
  }

  lemma EntryOfSourced(b: Book, p: Peer)
    requires BookOk(b)
    ensures Sourced(b.config, EntryOf(b, p))
  {
    if p in b.book {
      assert EntryOk(b.config, b.book[p]);
    }
  }

  lemma InsertBeaconOk(b: Book, p: Peer, addrs: seq<Addr>, now: nat)
    requires BookOk(b) && p != b.local && (p in b.book || |b.book| < b.config.maxKnownPeers)
    requires NoDuplicates(addrs) && |addrs| <= b.config.maxAddrs
    ensures BookOk(InsertBeacon(b, p, addrs, now))
  {
    hide BookOk, EntryOk, Sourced, BeaconChanged, MarkIfChanged, MaybeDial, Current, WithBeacon;
    var e := EntryOf(b, p);
    var moved := if BeaconChanged(e, addrs) && e.dial.Backoff? then [BeaconMoved(p)] else [];
    var b1 := b.(book := b.book[p := WithBeacon(e, addrs, now)], log := b.log + moved);
    EntryOfSourced(b, p);
    BeaconOk(b.config, e, addrs, now);
    SetOk(b, b1, p, WithBeacon(e, addrs, now));
    MarkIfChangedOk(Current(b, p), b1, p, SignedBeacon);
    MaybeDialOk(MarkIfChanged(Current(b, p), b1, p, SignedBeacon), p, SignedBeacon, now);
  }

  lemma ObserveBeaconOk(b: Book, p: Peer, addrs: seq<Option<Addr>>, now: nat)
    requires BookOk(b) && ValidConfig(b.config)
    ensures BookOk(ObserveBeacon(b, p, addrs, now))
  {
    hide BookOk, MakeRoom, InsertBeacon, Normalize;
    var as_ := Normalize(addrs, [], b.config.maxAddrs);
    NormalizeFacts(addrs, [], b.config.maxAddrs);
    if p != b.local {
      if p in b.book {
        InsertBeaconOk(b, p, as_, now);
      } else {
        MakeRoomOk(b, p, SignedBeacon);
        Runs.MakeRoomReported(b, p, SignedBeacon);
        var room := MakeRoom(b, p, SignedBeacon);
        if room.0 {
          InsertBeaconOk(room.1, p, as_, now);
        }
      }
    }
  }

  lemma InsertClaimsOk(b: Book, p: Peer, claims: seq<(Addr, nat)>, now: nat)
    requires BookOk(b) && p != b.local && (p in b.book || |b.book| < b.config.maxKnownPeers)
    ensures BookOk(InsertClaims(b, p, claims, now))
  {
    hide BookOk, Sourced, ApplyClaims, MarkIfChanged, MaybeDial, Current, RemovePeer, IsEmpty, HasPositive;
    var e := ApplyClaims(EntryOf(b, p), claims, now, b.config);
    var b1 := b.(book := b.book[p := e]);
    EntryOfSourced(b, p);
    ClaimsSourced(b.config, EntryOf(b, p), claims, now);
    if IsEmpty(e) {
      assert b1.book - {p} == b.book - {p};
      RemoveOk(b, b1, p);
    } else {
      SetOk(b, b1, p, e);
      MarkIfChangedOk(Current(b, p), b1, p, Mdns);
      MaybeDialOk(MarkIfChanged(Current(b, p), b1, p, Mdns), p, Mdns, now);
    }
  }

  lemma ObserveMdnsOk(b: Book, p: Peer, claims: seq<(Option<Addr>, nat)>, now: nat)
    requires BookOk(b)
    ensures BookOk(ObserveMdns(b, p, claims, now))
  {
    hide BookOk, MakeRoom, InsertClaims, Accepted, HasPositive;
    var accepted := Accepted(claims);
    if p != b.local {
      if p in b.book {
        InsertClaimsOk(b, p, accepted, now);
      } else {
        MakeRoomOk(b, p, Mdns);
        Runs.MakeRoomReported(b, p, Mdns);
        var room := MakeRoom(b, p, Mdns);
        if room.0 {
          InsertClaimsOk(room.1, p, accepted, now);
        }
      }
    }
  }

  lemma SetDialOk(b: Book, b': Book, p: Peer)
    requires BookOk(b) && p in b.book && p in b'.book && b'.config == b.config && b'.local == b.local
    requires b'.book == b.book[p := b.book[p].(dial := b'.book[p].dial)]
    ensures BookOk(b')
  {
    hide EntryOk;
    assert EntryOk(b.config, b.book[p]);
    DialingOk(b.config, b.book[p], b'.book[p]);
    SetOk(b, b', p, b'.book[p]);
  }

  lemma ResultsOk(b: Book, p: Peer, reason: string, now: nat)
    requires BookOk(b)
    ensures BookOk(PeerConnected(b, p)) && BookOk(DialSucceeded(b, p)) && BookOk(DialFailedWith(b, p, reason, now))
  {
    hide BookOk;
    if p in b.book {
      SetDialOk(b, PeerConnected(b, p), p);
      if b.book[p].dial.InFlight? {
        SetDialOk(b, DialSucceeded(b, p), p);
        SetDialOk(b, DialFailedWith(b, p, reason, now), p);
      }
    } else {
      SameBookOk(b, PeerConnected(b, p));
    }
  }

  lemma ResetOk(b: Book)
    requires BookOk(b)
    ensures BookOk(ResetDials(b))
  {
    hide EntryOk;
    var b' := ResetDials(b);
    assert b'.book.Keys == b.book.Keys;
    forall p | p in b'.book
      ensures EntryOk(b'.config, b'.book[p])
    {
      assert EntryOk(b.config, b.book[p]);
      DialingOk(b.config, b.book[p], b'.book[p]);
    }
  }

  // ---- expiry ----

  /** Nothing due means nothing changes. */
  lemma NotDueStays(c: Config, e: Entry, now: nat)
    requires Sourced(c, e) && !BeaconDue(e, now, c) && !MdnsDue(e, now)
    ensures Expire(e, now, c) == e
  {
    hide KeepFresh;
    assert forall a | a in e.mdns :: !RecordDue(e, a, now);
    KeepFreshAll(e, e.mdnsOrder, now);
    assert Expire(e, now, c).mdns == e.mdns;
  }

  /** One visit replaces the entry by its unexpired part, or removes it when nothing is left. */
  lemma ExpireOneBook(b: Book, p: Peer, now: nat)
    requires BookOk(b)
    ensures BookOk(ExpireOne(b, p, now)) && ExpireOne(b, p, now).config == b.config
    ensures ExpireOne(b, p, now).book == Refreshed(b, p, now)
  {
    hide BookOk, EntryOk, Expire, MarkIfChanged, Current, RemovePeer, IsEmpty, BeaconDue, MdnsDue, Sourced;
    Runs.ExpireOneReported(b, p, now);
    if p in b.book {
      var e := b.book[p];
      KnownOk(b, p);
      if !BeaconDue(e, now, b.config) && !MdnsDue(e, now) {
        NotDueStays(b.config, e, now);
      } else {
        var e' := Expire(e, now, b.config);
        var b1 := b.(book := b.book[p := e']);
        ExpireSourced(b.config, e, now);
        if IsEmpty(e') {
          assert b1.book - {p} == b.book - {p};
          RemoveOk(b, b1, p);
        } else {
          SourcedNonEmpty(b.config, e');
          SetOk(b, b1, p, e');
          var source := if BeaconDue(e, now, b.config) then SignedBeacon else Mdns;
          MarkIfChangedOk(Current(b, p), b1, p, source);
          MarkIfChangedBook(Current(b, p), b1, p, source);
        }
      }
    }
  }

  lemma SourcedNonEmpty(c: Config, e: Entry)
    requires Sourced(c, e) && !IsEmpty(e)
    ensures EntryOk(c, e)
  {
  }

  lemma MarkIfChangedBook(before: Option<View>, b: Book, x: Peer, source: Source)
    ensures MarkIfChanged(before, b, x, source).book == b.book
  {
    hide MarkState, Current;
    D.MarkFrame(b, x, source);
  }

  lemma KnownOk(b: Book, p: Peer)
    requires BookOk(b) && p in b.book
    ensures p != b.local && Sourced(b.config, b.book[p]) && !IsEmpty(b.book[p])
  {
    assert EntryOk(b.config, b.book[p]);
  }

  function Refreshed(b: Book, p: Peer, now: nat): map<Peer, Entry> {
    if p !in b.book then b.book
    else
      var e := Expire(b.book[p], now, b.config);
      if IsEmpty(e) then b.book - {p} else b.book[p := e]
  }

  /** `p` is left as expiry at `now` leaves it. */
  predicate ExpiredAt(b: Book, b': Book, p: Peer, now: nat) {
    if p in b.book && !IsEmpty(Expire(b.book[p], now, b.config))
    then p in b'.book && b'.book[p] == Expire(b.book[p], now, b.config)
    else p !in b'.book
  }

  predicate SameAt(b: Book, b': Book, p: Peer) {
    (p in b'.book <==> p in b.book) && (p in b.book ==> b'.book[p] == b.book[p])
  }

  /** A tick expires exactly the visited peers' due records, in any visiting order. */
  lemma {:induction false} TickExpires(b: Book, peers: seq<Peer>, now: nat)
    requires BookOk(b) && NoDuplicates(peers)
    ensures BookOk(Tick(b, peers, now)) && Tick(b, peers, now).config == b.config
    ensures forall p :: if p in peers then ExpiredAt(b, Tick(b, peers, now), p, now) else SameAt(b, Tick(b, peers, now), p)
  {
    hide BookOk, ExpireOne, Expire, IsEmpty;
    if peers != [] {
      var init, last := peers[..|peers| - 1], peers[|peers| - 1];
      TickExpires(b, init, now);
      var c := Tick(b, init, now);
      assert peers == init + [last] && last !in init;
      assert SameAt(b, c, last);
      ExpireOneBook(c, last, now);
      forall p
        ensures if p in peers then ExpiredAt(b, Tick(b, peers, now), p, now) else SameAt(b, Tick(b, peers, now), p)
      {
        assert p in peers <==> p in init || p == last;
        assert if p in init then ExpiredAt(b, c, p, now) else SameAt(b, c, p);
      }
    }
  }

  /** After a tick that visits the whole book, nothing in it is due. */
  lemma TickLeavesFresh(b: Book, peers: seq<Peer>, now: nat, p: Peer)
    requires BookOk(b) && NoDuplicates(peers) && (forall q | q in b.book :: q in peers)
    requires p in Tick(b, peers, now).book
    ensures var e := Tick(b, peers, now).book[p]; !BeaconDue(e, now, b.config) && !MdnsDue(e, now)
  {
    hide BookOk, Tick, KeepFresh;
    TickExpires(b, peers, now);
    var t := Tick(b, peers, now);
    assert if p in peers then ExpiredAt(b, t, p, now) else SameAt(b, t, p);
  }

  /** What is not due survives the tick unchanged. */
  lemma TickKeepsFresh(b: Book, peers: seq<Peer>, now: nat, p: Peer)
    requires BookOk(b) && NoDuplicates(peers) && p in b.book
    ensures var e, t := b.book[p], Tick(b, peers, now);
            && (e.beacon.Some? && !BeaconDue(e, now, b.config) ==> p in t.book && t.book[p].beacon == e.beacon)
            && (forall a | a in e.mdns && !RecordDue(e, a, now) :: p in t.book && a in t.book[p].mdns && t.book[p].mdns[a] == e.mdns[a])
  {
    hide BookOk, Tick, KeepFresh;
    TickExpires(b, peers, now);
    var t := Tick(b, peers, now);
    assert if p in peers then ExpiredAt(b, t, p, now) else SameAt(b, t, p);
    var e := b.book[p];
    hide Expire, IsEmpty, BeaconDue, RecordDue;
    BeaconStays(e, now, b.config);
    forall a | a in e.mdns && !RecordDue(e, a, now)
      ensures p in t.book && a in t.book[p].mdns && t.book[p].mdns[a] == e.mdns[a]
    {
      RecordStays(e, a, now, b.config);
    }
  }

  lemma RecordStays(e: Entry, a: Addr, now: nat, c: Config)
    requires a in e.mdns && !RecordDue(e, a, now)
    ensures a in Expire(e, now, c).mdns && Expire(e, now, c).mdns[a] == e.mdns[a] && !IsEmpty(Expire(e, now, c))
  {
    assert a in Expire(e, now, c).mdns.Keys;
  }

  lemma BeaconStays(e: Entry, now: nat, c: Config)
    ensures !BeaconDue(e, now, c) ==> Expire(e, now, c).beacon == e.beacon
    ensures !BeaconDue(e, now, c) && e.beacon.Some? ==> !IsEmpty(Expire(e, now, c))
  {
  }

  // ---- claims ----

  /** The addresses of `order` that are still known, in their order. */
  function KeepIn(order: seq<Addr>, keys: set<Addr>): seq<Addr> {
    if order == [] then []
    else KeepIn(order[..|order| - 1], keys) + (if order[|order| - 1] in keys then [order[|order| - 1]] else [])
  }

  lemma {:induction false} KeepAll(order: seq<Addr>, keys: set<Addr>)
    requires forall a | a in order :: a in keys
    ensures KeepIn(order, keys) == order
  {
    if order != [] {
      KeepAll(order[..|order| - 1], keys);
    }
  }

  lemma {:induction false} KeepWithout(order: seq<Addr>, keys: set<Addr>, x: Addr)
    requires x !in keys && forall a | a in order && a != x :: a in keys
    ensures KeepIn(order, keys) == Without(order, x)
  {
    if order != [] {
      KeepWithout(order[..|order| - 1], keys, x);
    }
  }

  /**
   What one claim does: zero withdraws the address and nothing else, a known address or one
   below the cap is recorded, the addresses that stay keep their order, and a new one is last.
   */
  lemma ClaimExact(e: Entry, a: Addr, ttl: nat, now: nat, c: Config)
    requires Sourced(c, e)
    ensures ttl == 0 ==> ApplyClaim(e, a, ttl, now, c).mdns == e.mdns - {a}
    ensures ttl > 0 && (a in e.mdns || |e.mdns| < c.maxAddrs) ==>
              ApplyClaim(e, a, ttl, now, c).mdns == e.mdns[a := RecordFor(ttl, now, c)]
    ensures var r := ApplyClaim(e, a, ttl, now, c);
            r.mdnsOrder == KeepIn(e.mdnsOrder, r.mdns.Keys) + if a in r.mdns && a !in e.mdns then [a] else []
  {
    hide Without, KeepIn, RecordFor, BeaconAddrs, NoDuplicates, IsSoonest;
    var r := ApplyClaim(e, a, ttl, now, c);
    var kept := KeepIn(e.mdnsOrder, r.mdns.Keys);
    assert kept + [] == kept;
    if ttl == 0 {
      if a in e.mdns {
        KeepWithout(e.mdnsOrder, r.mdns.Keys, a);
      } else {
        assert e.mdns - {a} == e.mdns;
        KeepAll(e.mdnsOrder, r.mdns.Keys);
      }
    } else if a in e.mdns || |e.mdns| != c.maxAddrs || e.mdns.Keys == {} {
      KeepAll(e.mdnsOrder, r.mdns.Keys);
    } else {
      ReplacedOrder(e, a, ttl, now, c);
    }
  }

  /** The same at the cap. */
  lemma ReplacedOrder(e: Entry, a: Addr, ttl: nat, now: nat, c: Config)
    requires Sourced(c, e) && ttl > 0 && a !in e.mdns && |e.mdns| == c.maxAddrs && e.mdns.Keys != {}
    ensures var r := ApplyClaim(e, a, ttl, now, c);
            r.mdnsOrder == KeepIn(e.mdnsOrder, r.mdns.Keys) + if a in r.mdns && a !in e.mdns then [a] else []
  {
    hide Without, KeepIn, RecordFor, BeaconAddrs, NoDuplicates, IsSoonest;
    var r := ApplyClaim(e, a, ttl, now, c);
    if r == e {
      KeepAll(e.mdnsOrder, r.mdns.Keys);
      assert e.mdnsOrder + [] == e.mdnsOrder;
    } else {
      KeepWithout(e.mdnsOrder, r.mdns.Keys, Soonest(e.mdns));
    }
  }

  /** At the cap the old records and the claim compete, and exactly one that expires first is dropped. */
  lemma CapDropsSoonest(e: Entry, a: Addr, ttl: nat, now: nat, c: Config)
    requires ttl > 0 && a !in e.mdns && |e.mdns| == c.maxAddrs > 0
    ensures var all := e.mdns[a := RecordFor(ttl, now, c)];
            exists x :: x in all && ApplyClaim(e, a, ttl, now, c).mdns == all - {x}
                        && forall y | y in all :: all[x].expiresAt <= all[y].expiresAt
  {
    assert e.mdns.Keys != {} by {
      assert |e.mdns.Keys| == |e.mdns|;
    }
    var r := RecordFor(ttl, now, c);
    var all := e.mdns[a := r];
    var soonest := Soonest(e.mdns);
    SoonestIsLeast(e.mdns, soonest);
    hide Without, RecordFor, IsSoonest;
    if r.expiresAt <= e.mdns[soonest].expiresAt {
      DropsOne(e.mdns, a, r, a);
    } else {
      DropsOne(e.mdns, a, r, soonest);
    }
  }

  /** Leaving out one of the records and the claim. */
  lemma DropsOne(m: map<Addr, Record>, a: Addr, r: Record, x: Addr)
    requires a !in m && (x == a || x in m)
    requires forall y | y in m :: m[a := r][x].expiresAt <= m[y].expiresAt
    requires m[a := r][x].expiresAt <= r.expiresAt
    ensures var all := m[a := r];
            && x in all && all - {x} == (if x == a then m else (m - {x})[a := r])
            && forall y | y in all :: all[x].expiresAt <= all[y].expiresAt
  {
    var all := m[a := r];
    assert x == a ==> all - {x} == m;
    assert x != a ==> all - {x} == (m - {x})[a := r];
  }

  lemma SoonestIsLeast(m: map<Addr, Record>, a: Addr)
    requires IsSoonest(m, a)
    ensures a in m && forall x | x in m :: m[a].expiresAt <= m[x].expiresAt
  {
  }

  // ---- what a view tells ----

  /** Equal views mean the same sources, address by address: no change of provenance goes unreported. */
  lemma ViewDetermines(c: Config, e: Entry, e': Entry)
    requires Sourced(c, e) && Sourced(c, e') && ViewOf(c, e) == ViewOf(c, e')
    ensures e.mdns.Keys == e'.mdns.Keys && (e.beacon.Some? <==> e'.beacon.Some?)
    ensures forall a :: a in BeaconAddrs(e) <==> a in BeaconAddrs(e')
  {
    hide Merge, BeaconAddrs;
    forall a
      ensures a in BeaconAddrs(e) ==> a in BeaconAddrs(e')
      ensures a in BeaconAddrs(e') ==> a in BeaconAddrs(e)
      ensures a in e.mdns <==> a in e'.mdns
    {
      ViewSources(c, e, a);
      ViewSources(c, e', a);
    }
  }

  lemma ViewSources(c: Config, e: Entry, a: Addr)
    requires Sourced(c, e)
    ensures a in BeaconAddrs(e) <==> (a, true, true) in ViewOf(c, e).provenance || (a, true, false) in ViewOf(c, e).provenance
    ensures a in e.mdns <==> (a, true, true) in ViewOf(c, e).provenance || (a, false, true) in ViewOf(c, e).provenance
  {
    hide Merge, BeaconAddrs;
    MergeDistinct(BeaconAddrs(e), e.mdnsOrder);
    var all := Merge(BeaconAddrs(e), e.mdnsOrder);
    var pr := ViewOf(c, e).provenance;
    assert forall i | 0 <= i < |all| :: pr[i] == (all[i], all[i] in BeaconAddrs(e), all[i] in e.mdns);
    if a in all {
      var i :| 0 <= i < |all| && all[i] == a;
      assert pr[i] == (a, a in BeaconAddrs(e), a in e.mdns);
    }
  }

  // ---- eviction ----

  /** A peer leaves the book to make room only when the book is full, and only the least worth keeping. */
  lemma MakeRoomEvicts(b: Book, p: Peer, source: Source, q: Peer)
    requires q in b.book && q !in MakeRoom(b, p, source).1.book
    ensures |b.book| >= b.config.maxKnownPeers && IsVictim(b, source, q)
  {
    hide RemovePeer, Worse;
    forall c
      ensures RemovePeer(b, c).book == b.book - {c}
    {
      RemovedBook(b, c);
    }
  }

  /** An mDNS claim about a new peer never evicts a peer known by signed beacon. */
  lemma MdnsSparesBeaconPeers(b: Book, p: Peer, q: Peer)
    requires q in b.book && b.book[q].beacon.Some?
    ensures q in MakeRoom(b, p, Mdns).1.book
  {
    hide MakeRoom, Worse;
    if q !in MakeRoom(b, p, Mdns).1.book {
      MakeRoomEvicts(b, p, Mdns, q);
    }
  }

  // ---- runs ----

  predicate Visits(op: Runs.Op) {
    op.Ticked? ==> NoDuplicates(op.peers)
  }

  lemma DoOk(b: Book, op: Runs.Op)
    requires BookOk(b) && ValidConfig(b.config) && Visits(op)
    ensures BookOk(Runs.Do(b, op))
  {
    hide BookOk, ObserveBeacon, ObserveMdns, DialFailedWith, Tick, PollEvent, PeerConnected, DialSucceeded, ResetDials;
    match op
    case Beaconed(p, addrs, now) => ObserveBeaconOk(b, p, addrs, now);
    case Claimed(p, claims, now) => ObserveMdnsOk(b, p, claims, now);
    case Connect(p) => ResultsOk(b, p, [], 0);
    case Disconnect(p) => SameBookOk(b, Runs.Do(b, op));
    case Success(p) => ResultsOk(b, p, [], 0);
    case Failure(p, reason, now) => ResultsOk(b, p, reason, now);
    case Reset => ResetOk(b);
    case Ticked(peers, now) => TickExpires(b, peers, now);
    case Violated(p, source, reason) => SameBookOk(b, Runs.Do(b, op));
    case PolledAction => SameBookOk(b, Runs.Do(b, op));
    case PolledEvent => Runs.PollKnown(b); SameBookOk(b, PollEvent(b).0);
  }

  /** In every run the book respects its caps and every entry has a source and an exact address order. */
  lemma {:induction false} EveryRunBounded(local: Peer, config: Config, ops: seq<Runs.Op>)
    requires ValidConfig(config) && forall i | 0 <= i < |ops| :: Visits(ops[i])
    ensures BookOk(Runs.Run(New(local, config), ops))
  {
    hide BookOk, Runs.Do, Visits;
    if ops == [] {
      assert BookOk(New(local, config)) by {
        NewOk(local, config);
      }
    } else {
      var init := ops[..|ops| - 1];
      EveryRunBounded(local, config, init);
      Runs.RunConfig(New(local, config), init);
      DoOk(Runs.Run(New(local, config), init), ops[|ops| - 1]);
    }
  }

  lemma NewOk(local: Peer, config: Config)
    ensures BookOk(New(local, config))
  {
  }
}
