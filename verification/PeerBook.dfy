/**
 The two-source peer address book with its coalescing event queue and dial policy
 (crates/discovery/src/book.rs), on values.

 Peers and addresses are represented by their ranks in the total orders that the source's
 maps use.  `log` is a history of what happened to dials; no operation reads it.
 */
module PeerBook {
  import opened Bytes
  import opened Sequences
  import RW = RateWindow

  type Peer = nat
  type Addr = nat

  datatype Source = SignedBeacon | Mdns
  datatype Dial = Idle | InFlight | Backoff(until: nat)
  datatype Beacon = Beacon(addrs: seq<Addr>, lastSeen: nat)
  datatype Record = Record(observedAt: nat, expiresAt: nat)

  datatype Entry = Entry(
    beacon: Option<Beacon>,
    mdns: map<Addr, Record>,
    mdnsOrder: seq<Addr>,
    dial: Dial,
    attempts: seq<nat>)

  const NO_ENTRY := Entry(None, map[], [], Idle, [])

  datatype View = View(
    merged: seq<Addr>,
    provenance: seq<(Addr, bool, bool)>,
    beaconPresent: bool,
    mdnsPresent: bool)

  datatype Transition = Discovered(source: Source) | Updated(source: Source) | Expired
  datatype Pending = Pending(state: Option<Transition>, dialFailed: Option<string>)
  datatype Violation = Violation(peer: Option<Peer>, source: Source, reason: string, suppressed: nat)
  datatype Action = StartDial(peer: Peer, addrs: seq<Addr>, source: Source) | CancelDial(peer: Peer)

  datatype Event =
    | PeerDiscovered(peer: Peer, addrs: seq<Addr>, source: Source)
    | PeerUpdated(peer: Peer, addrs: seq<Addr>, source: Source)
    | PeerExpired(peer: Peer)
    | DialFailed(peer: Peer, reason: string)
    | ProtocolViolation(violation: Violation)

  datatype Config = Config(
    maxKnownPeers: nat,
    maxAddrs: nat,
    maxTtl: nat,
    beaconTtl: nat,
    autoDial: bool,
    tieBreak: bool,
    redialBackoff: nat,
    window: nat,
    peerLimit: nat,
    globalLimit: nat,
    maxViolations: nat)

  /** `PeerDiscoveryConfig::validate`. */
  predicate ValidConfig(c: Config) {
    && c.maxKnownPeers > 0 && c.maxAddrs > 0 && c.beaconTtl > 0 && c.maxTtl > 0 && c.window > 0
    && c.peerLimit > 0 && c.globalLimit > 0 && c.maxViolations > 0
  }

  /** The history of dials and of everything that settles one. */
  datatype Note =
    | Dialed(peer: Peer, now: nat, source: Source)
    | Connected(peer: Peer)
    | Succeeded(peer: Peer)
    | Failed(peer: Peer, until: nat)
    | BeaconMoved(peer: Peer)
    | Removed(peer: Peer)
    | ResetAll

  datatype Book = Book(
    config: Config,
    local: Peer,
    book: map<Peer, Entry>,
    connected: set<Peer>,
    actions: seq<Action>,
    pending: map<Peer, Pending>,
    order: seq<Peer>,
    reported: map<Peer, View>,
    violations: seq<Violation>,
    attempts: seq<nat>,
    log: seq<Note>)

  function New(local: Peer, config: Config): Book {
    Book(config, local, map[], {}, [], map[], [], map[], [], [], [])
  }

  // ---- views ----

  function BeaconAddrs(e: Entry): seq<Addr> {
    if e.beacon.Some? then e.beacon.value.addrs else []
  }

  function Merge(first: seq<Addr>, second: seq<Addr>): seq<Addr> {
    if second == [] then first
    else
      var m, last := Merge(first, second[..|second| - 1]), second[|second| - 1];
      if last in m then m else m + [last]
  }

  /** `view`: beacon addresses, then new mDNS ones, capped; the sources of each before the cap. */
  function ViewOf(c: Config, e: Entry): View {
    var b := BeaconAddrs(e);
    var all := Merge(b, e.mdnsOrder);
    View(all[..Min(c.maxAddrs, |all|)],
         seq(|all|, i requires 0 <= i < |all| => (all[i], all[i] in b, all[i] in e.mdns)),
         e.beacon.Some?, e.mdns.Keys != {})
  }

  function Current(b: Book, p: Peer): Option<View> {
    if p in b.book then Some(ViewOf(b.config, b.book[p])) else None
  }

  function Reported(b: Book, p: Peer): Option<View> {
    if p in b.reported then Some(b.reported[p]) else None
  }

  /** The transition that takes a client from one view to the other. */
  function Delta(from: Option<View>, to: Option<View>, source: Source): Option<Transition> {
    if from.None? && to.Some? then Some(Discovered(source))
    else if from.Some? && to.Some? && from.value != to.value then Some(Updated(source))
    else if from.Some? && to.None? then Some(Expired)
    else None
  }

  // ---- the pending queue ----

  function RemovePending(b: Book, p: Peer): Book {
    b.(pending := b.pending - {p}, order := Without(b.order, p))
  }

  function PendingOf(b: Book, p: Peer): Pending {
    if p in b.pending then b.pending[p] else Pending(None, None)
  }

  /** Sets a peer's slot, queueing the peer when it had none. */
  function PutPending(b: Book, p: Peer, slot: Pending): Book {
    b.(order := if p in b.pending then b.order else b.order + [p], pending := b.pending[p := slot])
  }

  function MarkState(b: Book, p: Peer, source: Source): Book {
    var reported, current := Reported(b, p), Current(b, p);
    var state := Delta(reported, current, source);
    if state.None? && reported.None? && current.None? then RemovePending(b, p)
    else if state.Some? then PutPending(b, p, PendingOf(b, p).(state := state))
    else if p !in b.pending then b
    else if b.pending[p].dialFailed.None? then RemovePending(b, p)
    else PutPending(b, p, b.pending[p].(state := None))
  }

  const MAX_REASON := 256

  function CapReason(reason: string): string {
    reason[..Min(MAX_REASON, |reason|)]
  }

  function MarkDialFailed(b: Book, p: Peer, reason: string): Book {
    if p !in b.book && p !in b.reported then RemovePending(b, p)
    else PutPending(b, p, PendingOf(b, p).(dialFailed := Some(CapReason(reason))))
  }

  /** Marks only when the view really changed. */
  function MarkIfChanged(before: Option<View>, b: Book, p: Peer, source: Source): Book {
    if before == Current(b, p) then b else MarkState(b, p, source)
  }

  // ---- removal and eviction ----

  function IsDialTo(a: Action, p: Peer): bool {
    a.StartDial? && a.peer == p
  }

  function DropDials(actions: seq<Action>, p: Peer): seq<Action> {
    if actions == [] then []
    else DropDials(actions[..|actions| - 1], p)
         + (if IsDialTo(actions[|actions| - 1], p) then [] else [actions[|actions| - 1]])
  }

  predicate DialQueued(actions: seq<Action>, p: Peer) {
    exists i | 0 <= i < |actions| :: IsDialTo(actions[i], p)
  }

  function PurgedActions(actions: seq<Action>, p: Peer, dial: Dial): seq<Action> {
    DropDials(actions, p) + (if dial.InFlight? || DialQueued(actions, p) then [CancelDial(p)] else [])
  }

  function RemovePeer(b: Book, p: Peer): Book {
    if p !in b.book then b
    else
      var b' := b.(book := b.book - {p}, actions := PurgedActions(b.actions, p, b.book[p].dial), log := b.log + [Removed(p)]);
      MarkState(b', p, Mdns)
  }

  lemma MinBy(s: set<nat>, le: (nat, nat) -> bool)
    requires s != {}
    requires forall x, y | x in s && y in s :: le(x, y) || le(y, x)
    requires forall x, y, z | x in s && y in s && z in s && le(x, y) && le(y, z) :: le(x, z)
    ensures exists m :: m in s && forall x | x in s :: le(m, x)
    decreases |s|
  {
    var x :| x in s;
    if s - {x} == {} {
      assert s == {x} && le(x, x);
    } else {
      MinBy(s - {x}, le);
      var m :| m in s - {x} && forall y | y in s - {x} :: le(m, y);
      assert forall y | y in s :: y == x || y in s - {x};
      if le(m, x) {
        assert forall y | y in s :: le(m, y);
      } else {
        assert le(x, m) && le(x, x);
        assert forall y | y in s :: le(x, y);
      }
    }
  }

  /** The latest mDNS observation, zero without one. */
  ghost function LastMdns(m: map<Addr, Record>): (r: nat)
    ensures forall a | a in m :: m[a].observedAt <= r
    ensures if m.Keys == {} then r == 0 else exists a | a in m :: m[a].observedAt == r
  {
    if m.Keys == {} then 0
    else
      var later := (x: nat, y: nat) => x in m && y in m && m[x].observedAt >= m[y].observedAt;
      MinBy(m.Keys, later);
      var a :| a in m.Keys && forall x | x in m.Keys :: later(a, x);
      assert forall x | x in m :: later(a, x);
      m[a].observedAt
  }

  function MaxOf(a: nat, b: nat): nat {
    if a < b then b else a
  }

  ghost function LastSeen(e: Entry): nat {
    MaxOf(if e.beacon.Some? then e.beacon.value.lastSeen else 0, LastMdns(e.mdns))
  }

  /** An mDNS claim may not evict a peer known by signed beacon. */
  predicate Evictable(b: Book, source: Source, p: Peer) {
    p in b.book && (source.SignedBeacon? || b.book[p].beacon.None?)
  }

  /** Less worth keeping: disconnected, then without beacon, then longest unseen, then by id. */
  ghost predicate Worse(b: Book, p: Peer, q: Peer)
    requires p in b.book && q in b.book
  {
    var pc, qc := p in b.connected, q in b.connected;
    var pb, qb := b.book[p].beacon.Some?, b.book[q].beacon.Some?;
    var ps, qs := LastSeen(b.book[p]), LastSeen(b.book[q]);
    if pc != qc then qc
    else if pb != qb then qb
    else if ps != qs then ps < qs
    else p <= q
  }

  ghost predicate IsVictim(b: Book, source: Source, p: Peer) {
    Evictable(b, source, p) && forall q | Evictable(b, source, q) :: Worse(b, p, q)
  }

  lemma VictimExists(b: Book, source: Source)
    ensures (exists p :: Evictable(b, source, p)) <==> exists p :: IsVictim(b, source, p)
  {
    hide LastSeen;
    if exists p :: Evictable(b, source, p) {
      var s := set p | p in b.book && Evictable(b, source, p);
      var some :| Evictable(b, source, some);
      assert some in s;
      MinBy(s, (p: Peer, q: Peer) => p in b.book && q in b.book && Worse(b, p, q));
      var p :| p in s && forall q | q in s :: p in b.book && q in b.book && Worse(b, p, q);
      assert IsVictim(b, source, p);
    }
  }

  lemma VictimUnique(b: Book, source: Source, p: Peer, q: Peer)
    requires IsVictim(b, source, p) && IsVictim(b, source, q)
    ensures p == q
  {
    hide LastSeen;
  }

  ghost function Victim(b: Book, source: Source): (r: Option<Peer>)
    ensures r.None? <==> forall p :: !Evictable(b, source, p)
    ensures r.Some? ==> IsVictim(b, source, r.value)
  {
    VictimExists(b, source);
    if exists p :: IsVictim(b, source, p) then
      var p :| IsVictim(b, source, p);
      Some(p)
    else None
  }

  /** Whether there is room for a new peer, and the book after making it. */
  ghost function MakeRoom(b: Book, incoming: Peer, source: Source): (bool, Book) {
    if |b.book| < b.config.maxKnownPeers then (true, b)
    else
      match Victim(b, source)
      case None => (false, b)
      case Some(c) => if c == incoming then (true, b) else (true, RemovePeer(b, c))
  }

  // ---- dialing ----

  predicate DialPermitted(d: Dial, now: nat) {
    d.Idle? || (d.Backoff? && now >= d.until)
  }

  predicate MayDial(b: Book, p: Peer, source: Source, now: nat) {
    && b.config.autoDial && p !in b.connected && (b.config.tieBreak ==> b.local < p)
    && p in b.book && DialPermitted(b.book[p].dial, now)
    && (source.Mdns? ==>
          && RW.Allows(b.book[p].attempts, now, b.config.window, b.config.peerLimit)
          && RW.Allows(b.attempts, now, b.config.window, b.config.globalLimit))
    && ViewOf(b.config, b.book[p]).merged != []
  }

  function MaybeDial(b: Book, p: Peer, source: Source, now: nat): Book {
    if !MayDial(b, p, source, now) then b
    else
      var e := b.book[p].(dial := InFlight);
      var charged := if source.Mdns? then e.(attempts := RW.Charge(e.attempts, now, b.config.window)) else e;
      b.(book := b.book[p := charged],
         attempts := if source.Mdns? then RW.Charge(b.attempts, now, b.config.window) else b.attempts,
         actions := b.actions + [StartDial(p, ViewOf(b.config, b.book[p]).merged, source)],
         log := b.log + [Dialed(p, now, source)])
  }

  // ---- observations ----

  /** `normalize_observed_addrs`, on what address normalization returned for each address. */
  function Normalize(addrs: seq<Option<Addr>>, done: seq<Addr>, cap: nat): seq<Addr>
    decreases |addrs|
  {
    if addrs == [] then done
    else if addrs[0].None? || addrs[0].value in done then Normalize(addrs[1..], done, cap)
    else if |done| + 1 == cap then done + [addrs[0].value]
    else Normalize(addrs[1..], done + [addrs[0].value], cap)
  }

  function EntryOf(b: Book, p: Peer): Entry {
    if p in b.book then b.book[p] else NO_ENTRY
  }

  /** The announced addresses differ from the last beacon's. */
  predicate BeaconChanged(e: Entry, addrs: seq<Addr>) {
    if e.beacon.Some? then e.beacon.value.addrs != addrs else addrs != []
  }

  function WithBeacon(e: Entry, addrs: seq<Addr>, now: nat): Entry {
    e.(beacon := Some(Beacon(addrs, now)),
       dial := if BeaconChanged(e, addrs) && e.dial.Backoff? then Idle else e.dial)
  }

  function InsertBeacon(b: Book, p: Peer, addrs: seq<Addr>, now: nat): Book {
    var e := EntryOf(b, p);
    var moved := if BeaconChanged(e, addrs) && e.dial.Backoff? then [BeaconMoved(p)] else [];
    var b1 := b.(book := b.book[p := WithBeacon(e, addrs, now)], log := b.log + moved);
    var b2 := MarkIfChanged(Current(b, p), b1, p, SignedBeacon);
    if addrs == [] then b2 else MaybeDial(b2, p, SignedBeacon, now)
  }

  ghost function ObserveBeacon(b: Book, p: Peer, addrs: seq<Option<Addr>>, now: nat): Book {
    if p == b.local then b
    else
      var as_ := Normalize(addrs, [], b.config.maxAddrs);
      if p in b.book then InsertBeacon(b, p, as_, now)
      else
        var room := MakeRoom(b, p, SignedBeacon);
        if room.0 then InsertBeacon(room.1, p, as_, now) else room.1
  }

  ghost predicate IsSoonest(m: map<Addr, Record>, a: Addr) {
    a in m && forall x | x in m ::
      m[a].expiresAt < m[x].expiresAt || (m[a].expiresAt == m[x].expiresAt && a <= x)
  }

  /** The record that expires first, ties broken by address. */
  ghost function Soonest(m: map<Addr, Record>): (a: Addr)
    requires m.Keys != {}
    ensures IsSoonest(m, a)
  {
    var before := (x: nat, y: nat) => x in m && y in m
      && (m[x].expiresAt < m[y].expiresAt || (m[x].expiresAt == m[y].expiresAt && x <= y));
    MinBy(m.Keys, before);
    var a :| a in m.Keys && forall x | x in m.Keys :: before(a, x);
    assert forall x | x in m :: before(a, x);
    a
  }

  lemma SoonestUnique(m: map<Addr, Record>, a: Addr, x: Addr)
    requires IsSoonest(m, a) && IsSoonest(m, x)
    ensures a == x
  {
  }

  function DropAddr(e: Entry, a: Addr): Entry {
    e.(mdns := e.mdns - {a}, mdnsOrder := Without(e.mdnsOrder, a))
  }

  function AddAddr(e: Entry, a: Addr, r: Record): Entry {
    e.(mdns := e.mdns[a := r], mdnsOrder := e.mdnsOrder + [a])
  }

  function RecordFor(ttl: nat, now: nat, c: Config): Record {
    Record(now, SatAdd(now, Min(ttl, c.maxTtl)))
  }

  /** One mDNS claim: zero withdraws, a known address is refreshed, a full set drops its soonest. */
  ghost function ApplyClaim(e: Entry, a: Addr, ttl: nat, now: nat, c: Config): Entry {
    var r := RecordFor(ttl, now, c);
    if ttl == 0 then (if a in e.mdns then DropAddr(e, a) else e)
    else if a in e.mdns then e.(mdns := e.mdns[a := r])
    else if |e.mdns| != c.maxAddrs then AddAddr(e, a, r)
    else if e.mdns.Keys == {} then e
    else
      var soonest := Soonest(e.mdns);
      if r.expiresAt <= e.mdns[soonest].expiresAt then e else AddAddr(DropAddr(e, soonest), a, r)
  }

  ghost function ApplyClaims(e: Entry, claims: seq<(Addr, nat)>, now: nat, c: Config): Entry {
    if claims == [] then e
    else
      var n := |claims| - 1;
      ApplyClaim(ApplyClaims(e, claims[..n], now, c), claims[n].0, claims[n].1, now, c)
  }

  function Accepted(claims: seq<(Option<Addr>, nat)>): seq<(Addr, nat)> {
    if claims == [] then []
    else
      var n := |claims| - 1;
      Accepted(claims[..n]) + (if claims[n].0.Some? then [(claims[n].0.value, claims[n].1)] else [])
  }

  predicate HasPositive(claims: seq<(Addr, nat)>) {
    exists i | 0 <= i < |claims| :: claims[i].1 > 0
  }

  predicate IsEmpty(e: Entry) {
    e.beacon.None? && e.mdns.Keys == {}
  }

  ghost function InsertClaims(b: Book, p: Peer, claims: seq<(Addr, nat)>, now: nat): Book {
    var e := ApplyClaims(EntryOf(b, p), claims, now, b.config);
    var b1 := b.(book := b.book[p := e]);
    if IsEmpty(e) then RemovePeer(b1, p)
    else
      var b2 := MarkIfChanged(Current(b, p), b1, p, Mdns);
      if HasPositive(claims) then MaybeDial(b2, p, Mdns, now) else b2
  }

  ghost function ObserveMdns(b: Book, p: Peer, claims: seq<(Option<Addr>, nat)>, now: nat): Book {
    if p == b.local then b
    else
      var claims := Accepted(claims);
      if p in b.book then InsertClaims(b, p, claims, now)
      else if !HasPositive(claims) then b
      else
        var room := MakeRoom(b, p, Mdns);
        if room.0 then InsertClaims(room.1, p, claims, now) else room.1
  }

  // ---- connection and dial results ----

  function SetDial(b: Book, p: Peer, d: Dial): Book
    requires p in b.book
  {
    b.(book := b.book[p := b.book[p].(dial := d)])
  }

  function PeerConnected(b: Book, p: Peer): Book {
    var b1 := b.(connected := b.connected + {p});
    if p in b.book then SetDial(b1, p, Idle).(log := b.log + [Connected(p)]) else b1
  }

  function PeerDisconnected(b: Book, p: Peer): Book {
    b.(connected := b.connected - {p})
  }

  function DialSucceeded(b: Book, p: Peer): Book {
    if p in b.book && b.book[p].dial.InFlight? then SetDial(b, p, Idle).(log := b.log + [Succeeded(p)]) else b
  }

  function DialFailedWith(b: Book, p: Peer, reason: string, now: nat): Book {
    if p in b.book && b.book[p].dial.InFlight? then
      var until := SatAdd(now, b.config.redialBackoff);
      MarkDialFailed(SetDial(b, p, Backoff(until)).(log := b.log + [Failed(p, until)]), p, reason)
    else b
  }

  function Settle(e: Entry): Entry {
    if e.dial.InFlight? then e.(dial := Idle) else e
  }

  function ResetDials(b: Book): Book {
    b.(actions := [], book := map p | p in b.book :: Settle(b.book[p]), log := b.log + [ResetAll])
  }

  // ---- expiry ----

  predicate BeaconDue(e: Entry, now: nat, c: Config) {
    e.beacon.Some? && now >= SatAdd(e.beacon.value.lastSeen, c.beaconTtl)
  }

  predicate RecordDue(e: Entry, a: Addr, now: nat) {
    a in e.mdns && now >= e.mdns[a].expiresAt
  }

  predicate MdnsDue(e: Entry, now: nat) {
    exists a | a in e.mdns :: RecordDue(e, a, now)
  }

  function KeepFresh(e: Entry, order: seq<Addr>, now: nat): seq<Addr> {
    if order == [] then []
    else
      var n := |order| - 1;
      KeepFresh(e, order[..n], now) + (if RecordDue(e, order[n], now) then [] else [order[n]])
  }

  /** The entry without the source records that are due. */
  function Expire(e: Entry, now: nat, c: Config): Entry {
    e.(beacon := if BeaconDue(e, now, c) then None else e.beacon,
       mdns := map a | a in e.mdns && now < e.mdns[a].expiresAt :: e.mdns[a],
       mdnsOrder := KeepFresh(e, e.mdnsOrder, now))
  }

  function ExpireOne(b: Book, p: Peer, now: nat): Book {
    if p !in b.book then b
    else
      var e := b.book[p];
      if !BeaconDue(e, now, b.config) && !MdnsDue(e, now) then b
      else
        var b1 := b.(book := b.book[p := Expire(e, now, b.config)]);
        if IsEmpty(b1.book[p]) then RemovePeer(b1, p)
        else MarkIfChanged(Current(b, p), b1, p, if BeaconDue(e, now, b.config) then SignedBeacon else Mdns)
  }

  /** `handle_tick`, visiting `peers` in order. */
  function Tick(b: Book, peers: seq<Peer>, now: nat): Book {
    if peers == [] then b else ExpireOne(Tick(b, peers[..|peers| - 1], now), peers[|peers| - 1], now)
  }

  // ---- polling ----

  function ReportViolation(b: Book, peer: Option<Peer>, source: Source, reason: string): Book {
    var n := |b.violations|;
    if n < b.config.maxViolations then b.(violations := b.violations + [Violation(peer, source, CapReason(reason), 0)])
    else if n == 0 then b
    else
      var newest := b.violations[n - 1];
      b.(violations := b.violations[..n - 1] + [newest.(suppressed := if newest.suppressed < 0xFFFF_FFFF then newest.suppressed + 1 else newest.suppressed)])
  }

  function PollAction(b: Book): (Book, Option<Action>) {
    if b.actions == [] then (b, None) else (b.(actions := b.actions[1..]), Some(b.actions[0]))
  }

  function Cleanup(b: Book, p: Peer): Book {
    if p in b.pending && b.pending[p] == Pending(None, None) then RemovePending(b, p) else b
  }

  function TakeState(b: Book, p: Peer): Book
    requires p in b.pending
  {
    b.(pending := b.pending[p := b.pending[p].(state := None)])
  }

  function TakeFailure(b: Book, p: Peer): Book
    requires p in b.pending
  {
    b.(pending := b.pending[p := b.pending[p].(dialFailed := None)])
  }

  /** The event of a transition, and what the client has been told afterwards. */
  function Announce(b: Book, p: Peer, t: Transition): Option<(Book, Event)> {
    if t.Expired? then Some((b.(reported := b.reported - {p}), PeerExpired(p)))
    else if p !in b.book then None
    else
      var v := ViewOf(b.config, b.book[p]);
      Some((b.(reported := b.reported[p := v]),
            if t.Discovered? then PeerDiscovered(p, v.merged, t.source) else PeerUpdated(p, v.merged, t.source)))
  }

  function HeadHasState(b: Book): bool {
    b.order != [] && b.order[0] in b.pending && b.pending[b.order[0]].state.Some?
  }

  function PollEvent(b: Book): (Book, Option<Event>)
    decreases |b.order|, HeadHasState(b)
  {
    if b.order == [] then
      if b.violations == [] then (b, None)
      else (b.(violations := b.violations[1..]), Some(ProtocolViolation(b.violations[0])))
    else
      var p := b.order[0];
      WithoutShrinks(b.order, p);
      if p in b.pending && b.pending[p].state.Some? then
        var taken := TakeState(b, p);
        match Announce(taken, p, b.pending[p].state.value)
        case None => PollEvent(Cleanup(taken, p))
        case Some((told, event)) => (Cleanup(told, p), Some(event))
      else if p in b.pending && b.pending[p].dialFailed.Some? then
        (Cleanup(TakeFailure(b, p), p), Some(DialFailed(p, b.pending[p].dialFailed.value)))
      else PollEvent(RemovePending(b, p))
  }
}
