/**
 `PeerDiscoveryAgent` with its maps, sets and queues updated in place
 (crates/discovery/src/book.rs), every method proved against `PeerBook`.
 */
module PeerDiscoveryAgent {
  import opened Bytes
  import opened Sequences
  import opened PeerBook
  import Runs = PeerBookRuns
  import RW = RateWindow

  // ---- loops over values ----

  method MergeLoop(first: seq<Addr>, second: seq<Addr>) returns (all: seq<Addr>)
    ensures all == Merge(first, second)
  {
    all := first;
    for i := 0 to |second|
      invariant all == Merge(first, second[..i])
    {
      assert second[..i + 1][..i] == second[..i];
      if second[i] !in all {
        all := all + [second[i]];
      }
    }
    assert second[..|second|] == second;
  }

  method NormalizeLoop(addrs: seq<Option<Addr>>, cap: nat) returns (r: seq<Addr>)
    ensures r == Normalize(addrs, [], cap)
  {
    r := [];
    var i := 0;
    while i < |addrs|
      invariant 0 <= i <= |addrs|
      invariant Normalize(addrs, [], cap) == Normalize(addrs[i..], r, cap)
    {
      assert addrs[i..][1..] == addrs[i + 1..];
      if addrs[i].Some? && addrs[i].value !in r {
        r := r + [addrs[i].value];
        if |r| == cap {
          return;
        }
      }
      i := i + 1;
    }
  }

  method LatestMdns(m: map<Addr, Record>) returns (r: nat)
    ensures r == LastMdns(m)
  {
    r := 0;
    var todo := m.Keys;
    while todo != {}
      invariant todo <= m.Keys
      invariant forall a | a in m && a !in todo :: m[a].observedAt <= r
      invariant r == 0 || exists a | a in m :: m[a].observedAt == r
      decreases |todo|
    {
      var a :| a in todo;
      if m[a].observedAt > r {
        r := m[a].observedAt;
      }
      todo := todo - {a};
    }
  }

  method FindSoonest(m: map<Addr, Record>) returns (a: Addr)
    requires m.Keys != {}
    ensures a == Soonest(m)
  {
    a :| a in m.Keys;
    var todo := m.Keys - {a};
    while todo != {}
      invariant todo <= m.Keys && a in m && a !in todo
      invariant forall x | x in m && x !in todo ::
        m[a].expiresAt < m[x].expiresAt || (m[a].expiresAt == m[x].expiresAt && a <= x)
      decreases |todo|
    {
      var x :| x in todo;
      if m[x].expiresAt < m[a].expiresAt || (m[x].expiresAt == m[a].expiresAt && x < a) {
        a := x;
      }
      todo := todo - {x};
    }
    SoonestUnique(m, a, Soonest(m));
  }

  /** The claims of one mDNS observation, applied one after another. */
  method ClaimsLoop(e: Entry, claims: seq<(Addr, nat)>, now: nat, c: Config) returns (r: Entry)
    ensures r == ApplyClaims(e, claims, now, c)
  {
    hide IsSoonest, Without;
    r := e;
    for i := 0 to |claims|
      invariant r == ApplyClaims(e, claims[..i], now, c)
    {
      assert claims[..i + 1][..i] == claims[..i];
      ghost var before := r;
      var (a, ttl) := claims[i];
      if ttl == 0 {
        if a in r.mdns {
          r := DropAddr(r, a);
        }
        continue;
      }
      var record := RecordFor(ttl, now, c);
      if a in r.mdns {
        r := r.(mdns := r.mdns[a := record]);
        continue;
      }
      if |r.mdns| == c.maxAddrs {
        if r.mdns.Keys == {} {
          continue;
        }
        var soonest := FindSoonest(r.mdns);
        if record.expiresAt <= r.mdns[soonest].expiresAt {
          continue;
        }
        r := DropAddr(r, soonest);
      }
      r := AddAddr(r, a, record);
    }
    assert claims[..|claims|] == claims;
  }

  predicate Ascending(s: seq<Peer>) {
    forall i, j | 0 <= i < j < |s| :: s[i] < s[j]
  }

  method LeastOf(keys: set<Peer>) returns (p: Peer)
    requires keys != {}
    ensures p in keys && forall q | q in keys :: p <= q
  {
    MinBy(keys, (x: nat, y: nat) => x <= y);
    p :| p in keys && forall q | q in keys :: p <= q;
  }

  lemma AscendingSnoc(s: seq<Peer>, p: Peer)
    requires Ascending(s) && (s != [] ==> s[|s| - 1] < p)
    ensures Ascending(s + [p])
  {
  }

  /** The keys in the order the map iterates. */
  method SortedKeys(keys: set<Peer>) returns (peers: seq<Peer>)
    ensures Ascending(peers) && forall p :: p in peers <==> p in keys
  {
    hide Ascending;
    peers := [];
    AscendingEmpty();
    var todo := keys;
    while todo != {}
      invariant todo <= keys && Ascending(peers)
      invariant forall p :: p in peers <==> p in keys && p !in todo
      invariant peers != [] ==> forall q | q in todo :: peers[|peers| - 1] < q
      decreases |todo|
    {
      var p := LeastOf(todo);
      AscendingSnoc(peers, p);
      peers := peers + [p];
      todo := todo - {p};
    }
  }

  lemma AscendingEmpty()
    ensures Ascending([])
  {
  }

  class PeerDiscoveryAgent {
    const config: Config
    const local: Peer
    var book: map<Peer, Entry>
    var connected: set<Peer>
    var actions: seq<Action>
    var pending: map<Peer, Pending>
    var order: seq<Peer>
    var reported: map<Peer, View>
    var violations: seq<Violation>
    var attempts: seq<nat>
    ghost var log: seq<Note>

    ghost function State(): Book
      reads this
    {
      Book(config, local, book, connected, actions, pending, order, reported, violations, attempts, log)
    }

    constructor (local: Peer, config: Config)
      ensures State() == New(local, config)
    {
      this.local, this.config := local, config;
      book, connected, actions, pending, order := map[], {}, [], map[], [];
      reported, violations, attempts, log := map[], [], [], [];
    }

    method Look(e: Entry) returns (v: View)
      ensures v == ViewOf(config, e)
    {
      var beacon := BeaconAddrs(e);
      var all := MergeLoop(beacon, e.mdnsOrder);
      v := View(all[..Min(config.maxAddrs, |all|)],
                seq(|all|, i requires 0 <= i < |all| => (all[i], all[i] in beacon, all[i] in e.mdns)),
                e.beacon.Some?, e.mdns.Keys != {});
    }

    method LookUp(p: Peer) returns (v: Option<View>)
      ensures v == Current(State(), p)
    {
      v := None;
      if p in book {
        var seen := Look(book[p]);
        v := Some(seen);
      }
    }

    // ---- the pending queue ----

    method DropPending(p: Peer)
      modifies this`pending, this`order
      ensures State() == RemovePending(old(State()), p)
    {
      pending := pending - {p};
      order := Without(order, p);
    }

    method EnsurePending(p: Peer)
      modifies this`pending, this`order
      ensures State() == PutPending(old(State()), p, PendingOf(old(State()), p)) && p in pending
    {
      if p !in pending {
        order := order + [p];
        pending := pending[p := Pending(None, None)];
      }
    }

    method MarkPeerState(p: Peer, source: Source)
      modifies this`pending, this`order
      ensures State() == MarkState(old(State()), p, source)
    {
      hide ViewOf, Without;
      var current := LookUp(p);
      var told := if p in reported then Some(reported[p]) else None;
      var state := Delta(told, current, source);
      if state.None? && told.None? && current.None? {
        DropPending(p);
        return;
      }
      if state.Some? {
        EnsurePending(p);
        pending := pending[p := pending[p].(state := state)];
      } else if p in pending {
        if pending[p].dialFailed.None? {
          DropPending(p);
        } else {
          pending := pending[p := pending[p].(state := None)];
        }
      }
    }

    method MarkPeerDialFailed(p: Peer, reason: string)
      modifies this`pending, this`order
      ensures State() == MarkDialFailed(old(State()), p, reason)
    {
      if p !in book && p !in reported {
        DropPending(p);
        return;
      }
      EnsurePending(p);
      pending := pending[p := pending[p].(dialFailed := Some(CapReason(reason)))];
    }

    // ---- removal and eviction ----

    method DropPeer(p: Peer)
      modifies this
      ensures State() == RemovePeer(old(State()), p)
    {
      hide MarkState, DropDials, DialQueued;
      if p !in book {
        return;
      }
      var e := book[p];
      book := book - {p};
      var queued := DialQueued(actions, p);
      var purged := DropDials(actions, p);
      if e.dial.InFlight? || queued {
        purged := purged + [CancelDial(p)];
      } else {
        assert purged + [] == purged;
      }
      actions := purged;
      log := log + [Removed(p)];
      MarkPeerState(p, Mdns);
    }

    method IsWorse(p: Peer, q: Peer) returns (worse: bool)
      requires p in book && q in book
      ensures worse == Worse(State(), p, q)
    {
      hide LastMdns;
      var ps := LatestMdns(book[p].mdns);
      var qs := LatestMdns(book[q].mdns);
      ps := MaxOf(if book[p].beacon.Some? then book[p].beacon.value.lastSeen else 0, ps);
      qs := MaxOf(if book[q].beacon.Some? then book[q].beacon.value.lastSeen else 0, qs);
      var pc, qc := p in connected, q in connected;
      if pc != qc {
        return qc;
      }
      if book[p].beacon.Some? != book[q].beacon.Some? {
        return book[q].beacon.Some?;
      }
      return if ps != qs then ps < qs else p <= q;
    }

    method FindVictim(source: Source) returns (r: Option<Peer>)
      ensures r == Victim(State(), source)
    {
      hide Worse;
      r := None;
      var todo := book.Keys;
      while todo != {}
        invariant todo <= book.Keys
        invariant r.None? ==> forall q | q in book && q !in todo :: !Evictable(State(), source, q)
        invariant r.Some? ==> Evictable(State(), source, r.value)
        invariant r.Some? ==> forall q | Evictable(State(), source, q) && q !in todo :: Worse(State(), r.value, q)
        decreases |todo|
      {
        var q :| q in todo;
        todo := todo - {q};
        if source.SignedBeacon? || book[q].beacon.None? {
          if r.None? {
            WorseOrder(State(), q, q, q);
            r := Some(q);
          } else {
            var worse := IsWorse(r.value, q);
            if !worse {
              ghost var was := r.value;
              forall x | Evictable(State(), source, x) && x !in todo
                ensures Worse(State(), q, x)
              {
                WorseOrder(State(), q, was, x);
              }
              r := Some(q);
            }
          }
        }
      }
      if r.Some? {
        assert IsVictim(State(), source, r.value);
        if Victim(State(), source).Some? {
          VictimUnique(State(), source, r.value, Victim(State(), source).value);
        }
      }
    }

    method MakeRoomFor(p: Peer, source: Source) returns (ok: bool)
      modifies this
      ensures MakeRoom(old(State()), p, source) == (ok, State())
    {
      hide RemovePeer, IsVictim;
      if |book| < config.maxKnownPeers {
        return true;
      }
      var candidate := FindVictim(source);
      if candidate.None? {
        return false;
      }
      if candidate.value != p {
        DropPeer(candidate.value);
      }
      return true;
    }

    // ---- dialing ----

    method TryDial(p: Peer, source: Source, now: nat)
      modifies this
      ensures State() == MaybeDial(old(State()), p, source, now)
    {
      hide ViewOf, RW.Charge, RW.Allows;
      if !config.autoDial || p in connected || (config.tieBreak && local >= p) || p !in book {
        return;
      }
      var e := book[p];
      if !DialPermitted(e.dial, now) {
        return;
      }
      if source.Mdns? {
        var mine := RW.CountLive(e.attempts, now, config.window, config.peerLimit);
        var all := RW.CountLive(attempts, now, config.window, config.globalLimit);
        if !mine || !all {
          return;
        }
      }
      var v := Look(e);
      if v.merged == [] {
        return;
      }
      e := e.(dial := InFlight);
      if source.Mdns? {
        var charged := RW.ChargeLoop(e.attempts, now, config.window);
        e := e.(attempts := charged);
        attempts := RW.ChargeLoop(attempts, now, config.window);
      }
      book := book[p := e];
      actions := actions + [StartDial(p, v.merged, source)];
      log := log + [Dialed(p, now, source)];
    }

    // ---- observations ----

    method PutBeacon(p: Peer, addrs: seq<Addr>, now: nat)
      modifies this
      ensures State() == InsertBeacon(old(State()), p, addrs, now)
    {
      hide ViewOf, MarkState, MaybeDial;
      var before := LookUp(p);
      var e := if p in book then book[p] else NO_ENTRY;
      var changed := BeaconChanged(e, addrs);
      ghost var moved := if changed && e.dial.Backoff? then [BeaconMoved(p)] else [];
      book := book[p := e.(beacon := Some(Beacon(addrs, now)), dial := if changed && e.dial.Backoff? then Idle else e.dial)];
      log := log + moved;
      var after := LookUp(p);
      if before != after {
        MarkPeerState(p, SignedBeacon);
      }
      if addrs != [] {
        TryDial(p, SignedBeacon, now);
      }
    }

    method ObserveBeaconAt(p: Peer, addrs: seq<Option<Addr>>, now: nat)
      modifies this
      ensures State() == ObserveBeacon(old(State()), p, addrs, now)
    {
      hide InsertBeacon, MakeRoom, Normalize;
      if p == local {
        return;
      }
      var normalized := NormalizeLoop(addrs, config.maxAddrs);
      if p !in book {
        var ok := MakeRoomFor(p, SignedBeacon);
        if !ok {
          return;
        }
      }
      PutBeacon(p, normalized, now);
    }

    method PutClaims(p: Peer, claims: seq<(Addr, nat)>, now: nat)
      modifies this
      ensures State() == InsertClaims(old(State()), p, claims, now)
    {
      hide ViewOf, MarkState, MaybeDial, ApplyClaims, RemovePeer, HasPositive;
      var before := LookUp(p);
      var e := ClaimsLoop(if p in book then book[p] else NO_ENTRY, claims, now, config);
      book := book[p := e];
      if IsEmpty(e) {
        DropPeer(p);
        return;
      }
      var after := LookUp(p);
      if before != after {
        MarkPeerState(p, Mdns);
      }
      if HasPositive(claims) {
        TryDial(p, Mdns, now);
      }
    }

    method ObserveMdnsAt(p: Peer, claims: seq<(Option<Addr>, nat)>, now: nat)
      modifies this
      ensures State() == ObserveMdns(old(State()), p, claims, now)
    {
      hide InsertClaims, MakeRoom, HasPositive, Accepted;
      if p == local {
        return;
      }
      var accepted := Accepted(claims);
      if p !in book {
        if !HasPositive(accepted) {
          return;
        }
        var ok := MakeRoomFor(p, Mdns);
        if !ok {
          return;
        }
      }
      PutClaims(p, accepted, now);
    }

    // ---- results ----

    method OnConnected(p: Peer)
      modifies this
      ensures State() == PeerConnected(old(State()), p)
    {
      connected := connected + {p};
      if p in book {
        book := book[p := book[p].(dial := Idle)];
        log := log + [Connected(p)];
      }
    }

    method OnDisconnected(p: Peer)
      modifies this
      ensures State() == PeerDisconnected(old(State()), p)
    {
      connected := connected - {p};
    }

    method OnDialSucceeded(p: Peer)
      modifies this
      ensures State() == DialSucceeded(old(State()), p)
    {
      if p in book && book[p].dial.InFlight? {
        book := book[p := book[p].(dial := Idle)];
        log := log + [Succeeded(p)];
      }
    }

    method OnDialFailed(p: Peer, reason: string, now: nat)
      modifies this
      ensures State() == DialFailedWith(old(State()), p, reason, now)
    {
      if p in book && book[p].dial.InFlight? {
        var until := SatAdd(now, config.redialBackoff);
        book := book[p := book[p].(dial := Backoff(until))];
        log := log + [Failed(p, until)];
        MarkPeerDialFailed(p, reason);
      }
    }

    method ResetAllDials()
      modifies this
      ensures State() == ResetDials(old(State()))
    {
      actions := [];
      book := map p | p in book :: Settle(book[p]);
      log := log + [ResetAll];
    }

    // ---- expiry ----

    method ExpirePeer(p: Peer, now: nat)
      modifies this
      ensures State() == ExpireOne(old(State()), p, now)
    {
      hide ViewOf, MarkState, RemovePeer, KeepFresh;
      if p !in book {
        return;
      }
      var e := book[p];
      var beaconDue, mdnsDue := BeaconDue(e, now, config), MdnsDue(e, now);
      if !beaconDue && !mdnsDue {
        return;
      }
      var before := LookUp(p);
      book := book[p := Expire(e, now, config)];
      if IsEmpty(book[p]) {
        DropPeer(p);
        return;
      }
      var after := LookUp(p);
      if before != after {
        MarkPeerState(p, if beaconDue then SignedBeacon else Mdns);
      }
    }

    /** Visits every peer in map order. */
    method HandleTick(now: nat) returns (ghost peers: seq<Peer>)
      modifies this
      ensures Ascending(peers) && (forall p :: p in peers <==> p in old(book))
      ensures State() == Tick(old(State()), peers, now)
    {
      hide ExpireOne;
      var keys := SortedKeys(book.Keys);
      for i := 0 to |keys|
        invariant State() == Tick(old(State()), keys[..i], now)
      {
        assert keys[..i + 1][..i] == keys[..i];
        ExpirePeer(keys[i], now);
      }
      assert keys[..|keys|] == keys;
      peers := keys;
    }

    // ---- polling ----

    method Report(peer: Option<Peer>, source: Source, reason: string)
      modifies this
      ensures State() == ReportViolation(old(State()), peer, source, reason)
    {
      var n := |violations|;
      if n < config.maxViolations {
        violations := violations + [Violation(peer, source, CapReason(reason), 0)];
      } else if n > 0 {
        var newest := violations[n - 1];
        if newest.suppressed < 0xFFFF_FFFF {
          newest := newest.(suppressed := newest.suppressed + 1);
        }
        violations := violations[..n - 1] + [newest];
      }
    }

    method NextAction() returns (a: Option<Action>)
      modifies this`actions
      ensures (State(), a) == PollAction(old(State()))
    {
      if actions == [] {
        return None;
      }
      a := Some(actions[0]);
      actions := actions[1..];
    }

    method CleanupHead(p: Peer)
      modifies this`pending, this`order
      ensures State() == Cleanup(old(State()), p)
    {
      if p in pending && pending[p].state.None? && pending[p].dialFailed.None? {
        DropPending(p);
      }
    }

    /** Announces a transition; `None` when the peer is gone. */
    method Tell(p: Peer, t: Transition) returns (event: Option<Event>)
      modifies this`reported
      ensures var a := Announce(old(State()), p, t);
              if a.None? then event.None? && State() == old(State())
              else event == Some(a.value.1) && State() == a.value.0
    {
      hide ViewOf;
      if t.Expired? {
        reported := reported - {p};
        return Some(PeerExpired(p));
      }
      if p !in book {
        return None;
      }
      var v := Look(book[p]);
      reported := reported[p := v];
      return Some(if t.Discovered? then PeerDiscovered(p, v.merged, t.source) else PeerUpdated(p, v.merged, t.source));
    }

    method NextEvent() returns (event: Option<Event>)
      modifies this
      ensures (State(), event) == PollEvent(old(State()))
    {
      hide ViewOf, Without, Announce;
      while order != []
        invariant PollEvent(State()) == PollEvent(old(State()))
        decreases |order|, HeadHasState(State())
      {
        var p := order[0];
        WithoutShrinks(order, p);
        if p in pending && pending[p].state.Some? {
          var t := pending[p].state.value;
          pending := pending[p := pending[p].(state := None)];
          event := Tell(p, t);
          CleanupHead(p);
          if event.Some? {
            return;
          }
        } else if p in pending && pending[p].dialFailed.Some? {
          event := Some(DialFailed(p, pending[p].dialFailed.value));
          pending := pending[p := pending[p].(dialFailed := None)];
          CleanupHead(p);
          return;
        } else {
          DropPending(p);
        }
      }
      if violations == [] {
        return None;
      }
      event := Some(ProtocolViolation(violations[0]));
      violations := violations[1..];
    }

    method PendingCount() returns (n: nat)
      ensures n == Runs.PendingEventCount(State())
    {
      n := 0;
      var todo := pending.Keys;
      ghost var s, f := {}, {};
      while todo != {}
        invariant todo <= pending.Keys
        invariant s == (set p | p in pending && pending[p].state.Some? && p !in todo)
        invariant f == (set p | p in pending && pending[p].dialFailed.Some? && p !in todo)
        invariant n == |s| + |f|
        decreases |todo|
      {
        var p :| p in todo;
        if pending[p].state.Some? {
          n, s := n + 1, s + {p};
        }
        if pending[p].dialFailed.Some? {
          n, f := n + 1, f + {p};
        }
        todo := todo - {p};
      }
      assert s == Runs.States(State()) && f == Runs.Failures(State());
      n := n + |violations|;
    }
  }

  lemma WorseOrder(b: Book, p: Peer, q: Peer, x: Peer)
    requires p in b.book && q in b.book && x in b.book
    ensures Worse(b, p, p)
    ensures Worse(b, p, q) || Worse(b, q, p)
    ensures Worse(b, p, q) && Worse(b, q, x) ==> Worse(b, p, x)
  {
    hide LastSeen;
  }
}
