/**
 What every run of the circuit transport keeps: exact cross-indexes, direct connections
 beating negotiating circuits, bounded tombstones, and the event protocol of each circuit.
 */
module CircuitRuns {
  import opened Bytes
  import opened Sequences
  import opened Circuit

  // ---- the direct maps are exact inverses ----

  predicate ConnSays(t: Transport, c: ConnId, p: Peer) {
    c in t.directByConn && t.directByConn[c] == p
  }

  predicate PeerSays(t: Transport, c: ConnId, p: Peer) {
    p in t.directByPeer && c in t.directByPeer[p]
  }

  ghost predicate DirectOk(t: Transport) {
    && (forall c, p :: ConnSays(t, c, p) <==> PeerSays(t, c, p))
    && (forall p | p in t.directByPeer :: t.directByPeer[p] != {})
  }

  lemma DropDirectSays(m: map<Peer, set<ConnId>>, id: ConnId, p: Peer, c: ConnId, q: Peer)
    ensures var r := DropDirect(m, id, p);
            (q in r && c in r[q]) <==> (q in m && c in m[q]) && !(c == id && q == p)
  {
    if p in m && m[p] - {id} == {} && q == p && c in m[p] {
      assert c in m[p] - {id} || c == id;
    }
  }

  lemma RemoveDirectOk(t: Transport, id: ConnId)
    requires DirectOk(t)
    ensures DirectOk(RemoveDirect(t, id))
  {
    if id in t.directByConn {
      var t', was := RemoveDirect(t, id), t.directByConn[id];
      assert ConnSays(t, id, was);
      forall c, p
        ensures ConnSays(t', c, p) <==> PeerSays(t', c, p)
      {
        assert ConnSays(t, c, p) <==> PeerSays(t, c, p);
        DropDirectSays(t.directByPeer, id, was, c, p);
      }
    }
  }

  lemma NoteDirectOk(t: Transport, id: ConnId, p: Peer)
    requires DirectOk(t)
    ensures DirectOk(NoteDirect(t, id, p))
  {
    var t' := NoteDirect(t, id, p);
    hide DropDirect;
    if id in t.directByConn {
      assert ConnSays(t, id, t.directByConn[id]);
      DropKeepsNonEmpty(t, id);
    }
    forall c, q
      ensures ConnSays(t', c, q) <==> PeerSays(t', c, q)
    {
      assert ConnSays(t, c, q) <==> PeerSays(t, c, q);
      if id in t.directByConn {
        DropDirectSays(t.directByPeer, id, t.directByConn[id], c, q);
      }
    }
  }

  lemma DropKeepsNonEmpty(t: Transport, id: ConnId)
    requires DirectOk(t) && id in t.directByConn
    ensures forall p | p in DropDirect(t.directByPeer, id, t.directByConn[id]) ::
              DropDirect(t.directByPeer, id, t.directByConn[id])[p] != {}
  {
  }

  // ---- structure ----

  /** A live circuit is the one its bridge is indexed under, rides an active connection, and has a fresh id. */
  predicate CircuitAt(t: Transport, id: ConnId) {
    id in t.circuits ==>
      var c := t.circuits[id];
      && c.key in t.bridgeIndex && t.bridgeIndex[c.key] == id
      && c.key.conn in t.activeInner
      && id in t.roles && t.roles[id] == c.role
  }

  predicate IndexAt(t: Transport, k: Key) {
    k in t.bridgeIndex ==> t.bridgeIndex[k] in t.circuits && t.circuits[t.bridgeIndex[k]].key == k
  }

  ghost predicate RetiredOk(t: Transport) {
    NoDuplicates(t.retiredOrder) && (forall k :: k in t.retiredOrder <==> k in t.retired) && |t.retiredOrder| <= MAX_RETIRED
  }

  ghost predicate IdsOk(t: Transport) {
    && (forall id | id in t.roles :: id.isCircuit && id.sequence < t.nextId)
    && (forall c | c in t.activeInner :: !c.isCircuit)
  }

  ghost predicate Struct(t: Transport) {
    && DirectOk(t) && RetiredOk(t) && IdsOk(t)
    && (forall id :: CircuitAt(t, id))
    && (forall k :: IndexAt(t, k))
  }

  /** No negotiating circuit to a directly connected peer. */
  predicate ArbitratedAt(t: Transport, id: ConnId) {
    id in t.circuits && !t.circuits[id].ready ==> t.circuits[id].remote !in t.directByPeer
  }

  // ---- the event protocol of one circuit ----

  datatype Phase = Negotiating | Live | Failed | Done | Broken

  /** Where a circuit's public events have got to, and whether it was announced as incoming. */
  datatype Trace = Trace(phase: Phase, incoming: bool)

  function TraceStep(s: Trace, e: Event): Trace {
    var next :=
      match e
      case IncomingConnection(_) => if s == Trace(Negotiating, false) then Negotiating else Broken
      case Connected(_, _) => if s.phase.Negotiating? then Live else Broken
      case StreamOpened(_, _) => if s.phase.Live? then Live else Broken
      case IncomingStream(_, _) => if s.phase.Live? then Live else Broken
      case StreamData(_, _) => if s.phase.Live? then Live else Broken
      case RemoteWriteClosed(_, _) => if s.phase.Live? then Live else Broken
      case StreamClosed(_, _) => if s.phase.Live? then Live else Broken
      case Error(_) => if s.phase.Negotiating? || s.phase.Live? then Failed else Broken
      case Closed(_) => if s.phase.Done? || s.phase.Broken? then Broken else Done
      case Verified(_, _) => Broken
      case Listening => s.phase;
    Trace(next, s.incoming || e.IncomingConnection?)
  }

  function TraceOf(events: seq<Event>, id: ConnId): Trace {
    if events == [] then Trace(Negotiating, false)
    else
      var s, e := TraceOf(events[..|events| - 1], id), events[|events| - 1];
      if EventId(e) == Some(id) then TraceStep(s, e) else s
  }

  /** Everything ever made public, delivered or still queued. */
  function Feed(t: Transport): seq<Event> {
    t.delivered + t.pending
  }

  /** What the feed must say of a circuit id. */
  function Expected(t: Transport, id: ConnId): Trace {
    if id in t.circuits then Trace(if t.circuits[id].ready then Live else Negotiating, t.circuits[id].role.Responder?)
    else if id in t.roles then Trace(Done, t.roles[id].Responder?)
    else Trace(Negotiating, false)
  }

  predicate TraceAt(t: Transport, id: ConnId) {
    id.isCircuit ==> TraceOf(Feed(t), id) == Expected(t, id)
  }

  /** `calm` when the wrapped transport never used an id of the circuit namespace. */
  ghost predicate Inv(t: Transport, calm: bool) {
    && Struct(t)
    && (calm ==> forall id :: TraceAt(t, id))
    && (forall id :: ArbitratedAt(t, id))
  }

  predicate OpenAt(t: Transport, x: ConnId)
    requires x in t.circuits
  {
    var s := TraceOf(Feed(t), x);
    s.incoming == t.circuits[x].role.Responder? && (s.phase.Negotiating? || s.phase.Live?)
  }

  /** The invariant except that `x` may be halfway through establishing. */
  ghost predicate InvBut(t: Transport, x: ConnId, calm: bool) {
    && Struct(t)
    && (calm ==> forall id | id != x :: TraceAt(t, id))
    && (forall id | id != x :: ArbitratedAt(t, id))
    && x in t.circuits
    && (calm ==> OpenAt(t, x))
  }

  lemma InvImpliesBut(t: Transport, x: ConnId, calm: bool)
    requires Inv(t, calm) && x in t.circuits
    ensures InvBut(t, x, calm)
  {
    hide TraceOf;
    assert CircuitAt(t, x);
    if calm {
      assert TraceAt(t, x);
    }
  }

  // ---- traces ----

  lemma {:induction false} TraceAppend(a: seq<Event>, b: seq<Event>, id: ConnId)
    requires forall i | 0 <= i < |b| :: EventId(b[i]) != Some(id)
    ensures TraceOf(a + b, id) == TraceOf(a, id)
  {
    if b == [] {
      assert a + b == a;
    } else {
      assert (a + b)[..|a + b| - 1] == a + b[..|b| - 1];
      TraceAppend(a, b[..|b| - 1], id);
    }
  }

  lemma TraceSnoc(a: seq<Event>, e: Event, id: ConnId)
    ensures TraceOf(a + [e], id) == if EventId(e) == Some(id) then TraceStep(TraceOf(a, id), e) else TraceOf(a, id)
  {
    assert (a + [e])[..|a|] == a;
  }

  lemma FeedPush(t: Transport, events: seq<Event>)
    ensures Feed(Push(t, events)) == Feed(t) + events
  {
  }

  /** Folding a list of one circuit's own events. */
  function FoldTrace(s: Trace, events: seq<Event>): Trace
    decreases |events|
  {
    if events == [] then s else FoldTrace(TraceStep(s, events[0]), events[1..])
  }

  lemma {:induction false} TraceFold(a: seq<Event>, b: seq<Event>, id: ConnId)
    requires forall i | 0 <= i < |b| :: EventId(b[i]) == Some(id)
    ensures TraceOf(a + b, id) == FoldTrace(TraceOf(a, id), b)
    decreases |b|
  {
    hide TraceStep;
    if b == [] {
      assert a + b == a;
    } else {
      TraceSnoc(a, b[0], id);
      TraceFold(a + [b[0]], b[1..], id);
      assert (a + [b[0]]) + b[1..] == a + b;
    }
  }

  // ---- pumping ----

  lemma {:induction false} PumpIds(t: Transport, id: ConnId, outputs: seq<Output>)
    ensures forall i | 0 <= i < |Pump(t, id, outputs).events| :: EventId(Pump(t, id, outputs).events[i]) == Some(id)
    decreases |outputs|
  {
    hide IsDirect;
    if outputs != [] {
      PumpIds(t, id, outputs[1..]);
    }
  }

  /** A legal session's events continue the protocol; a complete pump ends where the session is. */
  lemma {:induction false} PumpTrace(t: Transport, id: ConnId, ready: bool, remote: Peer, outputs: seq<Output>, s: Trace)
    requires LegalFrom(ready, remote, outputs) && s.phase == (if ready then Live else Negotiating)
    ensures var p := Pump(t, id, outputs); var r := FoldTrace(s, p.events);
            && r.incoming == s.incoming
            && (r.phase.Live? || r.phase.Negotiating?)
            && (p.ok ==> r.phase == if ready || Establishes(outputs) then Live else Negotiating)
    decreases |outputs|
  {
    hide IsDirect;
    if outputs != [] {
      var o, rest := outputs[0], outputs[1..];
      EstablishesCons(outputs);
      PumpTrace(t, id, ready || o.Established?, remote, rest,
                if o.Write? then s else Trace(Live, s.incoming));
      if !o.Write? {
        var e := if o.Established? then Connected(id, Some(o.peer)) else StreamEvent(id, o);
        assert ([e] + Pump(t, id, rest).events)[1..] == Pump(t, id, rest).events;
      }
    }
  }

  lemma EstablishesCons(outputs: seq<Output>)
    requires outputs != []
    ensures Establishes(outputs) <==> outputs[0].Established? || Establishes(outputs[1..])
  {
    if Establishes(outputs) && !outputs[0].Established? {
      var i :| 0 <= i < |outputs| && outputs[i].Established?;
      assert outputs[1..][i - 1].Established?;
    }
    if Establishes(outputs[1..]) {
      var i :| 0 <= i < |outputs[1..]| && outputs[1..][i].Established?;
      assert outputs[i + 1].Established?;
    }
  }

  // ---- tombstones stay bounded ----

  lemma {:induction false} ForgetConnFacts(s: seq<Key>, id: ConnId)
    ensures |ForgetConn(s, id)| <= |s|
    ensures forall k :: k in ForgetConn(s, id) <==> k in s && k.conn != id
    ensures NoDuplicates(s) ==> NoDuplicates(ForgetConn(s, id))
  {
    if s != [] {
      var init, last := s[..|s| - 1], s[|s| - 1];
      ForgetConnFacts(init, id);
      assert s == init + [last];
      if NoDuplicates(s) {
        assert last !in init;
        assert last !in ForgetConn(init, id);
      }
    }
  }

  lemma RetireOk(t: Transport, key: Key)
    requires RetiredOk(t)
    ensures RetiredOk(RetireBridge(t, key))
  {
    hide NoDuplicates;
    if key !in t.retired {
      var order := t.retiredOrder + [key];
      SnocDistinct(t.retiredOrder, key);
      assert forall k :: k in order <==> k in t.retired || k == key;
      if |order| > MAX_RETIRED {
        TailDistinct(order);
      }
    }
  }

  lemma SnocDistinct(s: seq<Key>, k: Key)
    requires NoDuplicates(s) && k !in s
    ensures NoDuplicates(s + [k])
  {
  }

  lemma TailDistinct(s: seq<Key>)
    requires NoDuplicates(s) && s != []
    ensures NoDuplicates(s[1..]) && forall k :: k in s[1..] <==> k in s && k != s[0]
  {
    assert s == [s[0]] + s[1..];
  }

  lemma ReleaseOk(t: Transport, key: Key, id: ConnId)
    requires RetiredOk(t)
    ensures RetiredOk(ReleaseBridge(t, key)) && RetiredOk(ReleaseConn(t, id))
  {
    hide Without, ForgetConn;
    WithoutFacts(t.retiredOrder, key);
    WithoutShrinks(t.retiredOrder, key);
    ForgetConnFacts(t.retiredOrder, id);
  }

  // ---- frames ----

  /** Everything the invariant reads except tombstones and the feed. */
  predicate SameCore(t: Transport, t': Transport) {
    && t'.circuits == t.circuits && t'.bridgeIndex == t.bridgeIndex && t'.activeInner == t.activeInner
    && t'.directByPeer == t.directByPeer && t'.directByConn == t.directByConn
    && t'.nextId == t.nextId && t'.roles == t.roles
  }

  lemma DirectFrame(t: Transport, t': Transport)
    requires DirectOk(t) && t'.directByPeer == t.directByPeer && t'.directByConn == t.directByConn
    ensures DirectOk(t')
  {
    forall c, p
      ensures ConnSays(t', c, p) <==> PeerSays(t', c, p)
    {
      assert ConnSays(t, c, p) <==> PeerSays(t, c, p);
    }
  }

  lemma StructFrame(t: Transport, t': Transport)
    requires Struct(t) && SameCore(t, t') && RetiredOk(t')
    ensures Struct(t')
  {
    hide DirectOk, RetiredOk;
    DirectFrame(t, t');
    forall id
      ensures CircuitAt(t', id)
    {
      assert CircuitAt(t, id);
    }
    forall k
      ensures IndexAt(t', k)
    {
      assert IndexAt(t, k);
    }
  }

  lemma RetiredFrame(t: Transport, t': Transport)
    requires RetiredOk(t) && t'.retired == t.retired && t'.retiredOrder == t.retiredOrder
    ensures RetiredOk(t')
  {
  }

  /** Events that are not about circuit ids, and any move of tombstones. */
  lemma QuietInv(t: Transport, t': Transport, events: seq<Event>, calm: bool)
    requires Inv(t, calm) && SameCore(t, t') && RetiredOk(t') && Feed(t') == Feed(t) + events
    requires calm ==> forall i | 0 <= i < |events| :: EventId(events[i]).Some? ==> !EventId(events[i]).value.isCircuit
    ensures Inv(t', calm)
  {
    hide Struct, TraceOf, RetiredOk, Feed;
    StructFrame(t, t');
    forall id
      ensures ArbitratedAt(t', id) && (calm ==> TraceAt(t', id))
    {
      assert ArbitratedAt(t, id);
      if calm && id.isCircuit {
        assert TraceAt(t, id);
        TraceAppend(Feed(t), events, id);
      }
    }
  }

  lemma PushInv(t: Transport, e: Event, calm: bool)
    requires Inv(t, calm) && (calm ==> EventId(e).Some? ==> !EventId(e).value.isCircuit)
    ensures Inv(Push(t, [e]), calm)
  {
    hide Inv;
    FeedPush(t, [e]);
    InvRetired(t, calm);
    RetiredFrame(t, Push(t, [e]));
    QuietInv(t, Push(t, [e]), [e], calm);
  }

  lemma InvRetired(t: Transport, calm: bool)
    requires Inv(t, calm)
    ensures RetiredOk(t)
  {
  }

  // ---- teardown ----

  function Unhooked(t: Transport, x: ConnId): Transport
    requires x in t.circuits
  {
    t.(circuits := t.circuits - {x}, bridgeIndex := t.bridgeIndex - {t.circuits[x].key})
  }

  lemma UnhookedStruct(t: Transport, x: ConnId)
    requires Struct(t) && x in t.circuits
    ensures Struct(Unhooked(t, x))
  {
    hide DirectOk, RetiredOk;
    var t' := Unhooked(t, x);
    DirectFrame(t, t');
    RetiredFrame(t, t');
    assert CircuitAt(t, x);
    forall id
      ensures CircuitAt(t', id)
    {
      assert CircuitAt(t, id);
    }
    forall k
      ensures IndexAt(t', k)
    {
      assert IndexAt(t, k);
    }
  }

  lemma FailStruct(t: Transport, x: ConnId, emit: bool)
    requires Struct(t) && x in t.circuits
    ensures Struct(FailCircuit(t, x, emit))
  {
    hide DirectOk, RetiredOk, IdsOk, Retire;
    UnhookedStruct(t, x);
    var u := Unhooked(t, x);
    RetireOk(u, t.circuits[x].key);
    var r := RetireBridge(u, t.circuits[x].key);
    RetiredFrame(r, FailCircuit(t, x, emit));
    StructFrame(u, FailCircuit(t, x, emit));
  }

  /** Error, if reported, and the one Closed end the circuit's events. */
  lemma FailTrace(t: Transport, x: ConnId, emit: bool)
    requires x in t.circuits && OpenAt(t, x)
    ensures TraceOf(Feed(FailCircuit(t, x, emit)), x) == Trace(Done, t.circuits[x].role.Responder?)
  {
    hide Retire, TraceOf;
    var f := Feed(t);
    if emit {
      TraceSnoc(f, Error(x), x);
      TraceSnoc(f + [Error(x)], Closed(x), x);
      assert (f + [Error(x)]) + [Closed(x)] == Feed(FailCircuit(t, x, emit));
    } else {
      TraceSnoc(f, Closed(x), x);
      assert f + [Closed(x)] == Feed(FailCircuit(t, x, emit));
    }
  }

  lemma FailOthers(t: Transport, x: ConnId, emit: bool, id: ConnId)
    requires x in t.circuits && id != x
    ensures TraceAt(t, id) ==> TraceAt(FailCircuit(t, x, emit), id)
    ensures ArbitratedAt(t, id) ==> ArbitratedAt(FailCircuit(t, x, emit), id)
  {
    hide Retire, TraceOf;
    var events := (if emit then [Error(x)] else []) + [Closed(x)];
    assert Feed(FailCircuit(t, x, emit)) == Feed(t) + events;
    TraceAppend(Feed(t), events, id);
  }

  /** Tearing down the circuit that was in the way restores the invariant. */
  lemma FailInv(t: Transport, x: ConnId, emit: bool, calm: bool)
    requires InvBut(t, x, calm)
    ensures Inv(FailCircuit(t, x, emit), calm)
    ensures FailCircuit(t, x, emit).circuits == t.circuits - {x}
  {
    hide Struct, TraceAt, ArbitratedAt, OpenAt, TraceOf, Feed;
    FailStruct(t, x, emit);
    FailGone(t, x, emit);
    var t' := FailCircuit(t, x, emit);
    RolesKnown(t, x);
    if calm {
      FailTrace(t, x, emit);
      DoneTrace(t, x, emit);
    }
    hide FailCircuit;
    forall id
      ensures ArbitratedAt(t', id) && (calm ==> TraceAt(t', id))
    {
      if id != x {
        FailOthers(t, x, emit, id);
      }
    }
  }

  lemma RolesKnown(t: Transport, x: ConnId)
    requires Struct(t) && x in t.circuits
    ensures x in t.roles && t.roles[x] == t.circuits[x].role && x.isCircuit && x.sequence < t.nextId
  {
    assert CircuitAt(t, x);
  }

  lemma FailGone(t: Transport, x: ConnId, emit: bool)
    requires x in t.circuits
    ensures ArbitratedAt(FailCircuit(t, x, emit), x)
    ensures FailCircuit(t, x, emit).circuits == t.circuits - {x}
    ensures FailCircuit(t, x, emit).roles == t.roles
  {
    hide Retire;
  }

  lemma DoneTrace(t: Transport, x: ConnId, emit: bool)
    requires x in t.circuits && x in t.roles && t.roles[x] == t.circuits[x].role
    requires TraceOf(Feed(FailCircuit(t, x, emit)), x) == Trace(Done, t.circuits[x].role.Responder?)
    ensures TraceAt(FailCircuit(t, x, emit), x)
  {
    hide FailCircuit, TraceOf, Feed;
    FailGone(t, x, emit);
  }

  lemma FailOneInv(t: Transport, x: ConnId, emit: bool, calm: bool)
    requires Inv(t, calm)
    ensures Inv(FailCircuit(t, x, emit), calm)
    ensures FailCircuit(t, x, emit).circuits == t.circuits - {x}
  {
    hide Inv, InvBut;
    if x in t.circuits {
      InvImpliesBut(t, x, calm);
      FailInv(t, x, emit, calm);
    }
  }

  lemma {:induction false} FailAllInv(t: Transport, ids: seq<ConnId>, always: bool, calm: bool)
    requires Inv(t, calm)
    ensures Inv(FailAll(t, ids, always), calm)
    ensures FailAll(t, ids, always).circuits == t.circuits - set i | 0 <= i < |ids| :: ids[i]
  {
    hide Inv, FailCircuit;
    if ids != [] {
      var init, last := ids[..|ids| - 1], ids[|ids| - 1];
      FailAllInv(t, init, always, calm);
      var t1 := FailAll(t, init, always);
      FailOneInv(t1, last, always || (last in t1.circuits && !t1.circuits[last].ready), calm);
      assert (set i | 0 <= i < |ids| :: ids[i]) == (set i | 0 <= i < |init| :: init[i]) + {last};
    }
  }
}
