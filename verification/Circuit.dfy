/**
 The circuit transport: relay bridges promoted to connections, arbitration against direct
 connections, and the public event feed (crates/circuit/src/lib.rs), on values.

 A secure session is an oracle: each call on it yields outputs and a fate, constrained only
 by `LegalFrom`.  The wrapped transport is unconstrained.  `delivered` and `roles` are
 histories; no operation reads them.
 */
module Circuit {
  import opened Bytes
  import opened Sequences

  type Peer = nat
  datatype ConnId = ConnId(isCircuit: bool, sequence: nat)
  datatype Role = Initiator | Responder
  datatype Key = Key(conn: ConnId, stream: nat)

  datatype Event =
    | IncomingConnection(id: ConnId)
    | Connected(id: ConnId, peer: Option<Peer>)
    | Verified(id: ConnId, peer: Option<Peer>)
    | StreamOpened(id: ConnId, stream: nat)
    | IncomingStream(id: ConnId, stream: nat)
    | StreamData(id: ConnId, stream: nat)
    | RemoteWriteClosed(id: ConnId, stream: nat)
    | StreamClosed(id: ConnId, stream: nat)
    | Closed(id: ConnId)
    | Error(id: ConnId)
    | Listening

  datatype Circuit = Circuit(key: Key, relay: Peer, remote: Peer, role: Role, ready: bool)

  datatype Transport = Transport(
    circuits: map<ConnId, Circuit>,
    bridgeIndex: map<Key, ConnId>,
    retired: set<Key>,
    retiredOrder: seq<Key>,
    activeInner: set<ConnId>,
    directByPeer: map<Peer, set<ConnId>>,
    directByConn: map<ConnId, Peer>,
    pending: seq<Event>,
    nextId: nat,
    delivered: seq<Event>,
    roles: map<ConnId, Role>)

  const MAX_RETIRED: nat := 1024
  const MAX_SEQUENCE: nat := 0x00FF_FFFF_FFFF_FFFF

  const NEW := Transport(map[], map[], {}, [], {}, map[], map[], [], 1, [], map[])

  function Push(t: Transport, events: seq<Event>): Transport {
    t.(pending := t.pending + events)
  }

  // ---- sessions ----

  /** A session output; a write carries whether the bridge takes it. */
  datatype Output =
    | Write(ok: bool)
    | Established(peer: Peer)
    | NewStream(stream: nat)
    | Data(stream: nat)
    | Fin(stream: nat)
    | Gone(stream: nat)

  /** How a session call ends: done, refused with the session healthy, or the session is dead. */
  datatype Fate = Fine | Refused | Fatal(graceful: bool)

  datatype SessionStep = SessionStep(outputs: seq<Output>, fate: Fate)

  /** A session establishes at most once, with the expected peer, before any stream output. */
  predicate LegalFrom(ready: bool, remote: Peer, outputs: seq<Output>)
    decreases |outputs|
  {
    if outputs == [] then true
    else if outputs[0].Write? then LegalFrom(ready, remote, outputs[1..])
    else if outputs[0].Established? then !ready && outputs[0].peer == remote && LegalFrom(true, remote, outputs[1..])
    else ready && LegalFrom(ready, remote, outputs[1..])
  }

  predicate Establishes(outputs: seq<Output>) {
    exists i | 0 <= i < |outputs| :: outputs[i].Established?
  }

  predicate IsDirect(t: Transport, p: Peer) {
    p in t.directByPeer && t.directByPeer[p] != {}
  }

  function StreamEvent(id: ConnId, o: Output): Event
    requires !o.Write? && !o.Established?
  {
    match o
    case NewStream(s) => IncomingStream(id, s)
    case Data(s) => StreamData(id, s)
    case Fin(s) => RemoteWriteClosed(id, s)
    case Gone(s) => StreamClosed(id, s)
  }

  datatype Pumped = Pumped(events: seq<Event>, ok: bool)

  /** `pump`: the events it queues, and whether it got to the end. */
  function Pump(t: Transport, id: ConnId, outputs: seq<Output>): Pumped {
    if outputs == [] then Pumped([], true)
    else
      match outputs[0]
      case Write(ok) => if ok then Pump(t, id, outputs[1..]) else Pumped([], false)
      case Established(peer) =>
        if IsDirect(t, peer) then Pumped([], false)
        else
          var rest := Pump(t, id, outputs[1..]);
          Pumped([Connected(id, Some(peer))] + rest.events, rest.ok)
      case _ =>
        var rest := Pump(t, id, outputs[1..]);
        Pumped([StreamEvent(id, outputs[0])] + rest.events, rest.ok)
  }

  /** The state after a session call was made and its outputs pumped. */
  function AfterPump(t: Transport, id: ConnId, outputs: seq<Output>): Transport
    requires id in t.circuits
  {
    var c := t.circuits[id];
    Push(t, Pump(t, id, outputs).events).(circuits := t.circuits[id := c.(ready := c.ready || Establishes(outputs))])
  }

  // ---- tombstones ----

  /** The set and the order after a bridge is retired; the oldest is forgotten over the cap. */
  function Retire(retired: set<Key>, order: seq<Key>, key: Key): (set<Key>, seq<Key>) {
    if key in retired then (retired, order)
    else
      var longer := order + [key];
      if |longer| > MAX_RETIRED then (retired + {key} - {longer[0]}, longer[1..]) else (retired + {key}, longer)
  }

  function RetireBridge(t: Transport, key: Key): Transport {
    var r := Retire(t.retired, t.retiredOrder, key);
    t.(retired := r.0, retiredOrder := r.1)
  }

  function ReleaseBridge(t: Transport, key: Key): Transport {
    if key in t.retired then t.(retired := t.retired - {key}, retiredOrder := Without(t.retiredOrder, key)) else t
  }

  function ForgetConn(s: seq<Key>, id: ConnId): seq<Key> {
    if s == [] then [] else ForgetConn(s[..|s| - 1], id) + (if s[|s| - 1].conn == id then [] else [s[|s| - 1]])
  }

  function ReleaseConn(t: Transport, id: ConnId): Transport {
    t.(retired := (set k | k in t.retired && k.conn != id), retiredOrder := ForgetConn(t.retiredOrder, id))
  }

  // ---- teardown ----

  function FailCircuit(t: Transport, id: ConnId, emit: bool): Transport {
    if id !in t.circuits then t
    else
      var key := t.circuits[id].key;
      var t1 := RetireBridge(t.(circuits := t.circuits - {id}, bridgeIndex := t.bridgeIndex - {key}), key);
      Push(t1, (if emit then [Error(id)] else []) + [Closed(id)])
  }

  /** Tears down several circuits; `always` reports an error even for established ones. */
  function FailAll(t: Transport, ids: seq<ConnId>, always: bool): Transport {
    if ids == [] then t
    else
      var t1, id := FailAll(t, ids[..|ids| - 1], always), ids[|ids| - 1];
      FailCircuit(t1, id, always || (id in t1.circuits && !t1.circuits[id].ready))
  }

  // ---- direct connections ----

  function DropDirect(byPeer: map<Peer, set<ConnId>>, id: ConnId, p: Peer): map<Peer, set<ConnId>> {
    if p !in byPeer then byPeer
    else if byPeer[p] - {id} == {} then byPeer - {p}
    else byPeer[p := byPeer[p] - {id}]
  }

  function AddDirect(byPeer: map<Peer, set<ConnId>>, id: ConnId, p: Peer): map<Peer, set<ConnId>> {
    byPeer[p := (if p in byPeer then byPeer[p] else {}) + {id}]
  }

  function NoteDirect(t: Transport, id: ConnId, p: Peer): Transport {
    var cleared :=
      if id in t.directByConn && t.directByConn[id] != p then DropDirect(t.directByPeer, id, t.directByConn[id])
      else t.directByPeer;
    t.(directByConn := t.directByConn[id := p], directByPeer := AddDirect(cleared, id, p))
  }

  /** The still-negotiating circuits to a peer. */
  predicate Loses(t: Transport, p: Peer, id: ConnId) {
    id in t.circuits && !t.circuits[id].ready && t.circuits[id].remote == p
  }

  function RecordDirect(t: Transport, id: ConnId, p: Peer, losers: seq<ConnId>): Transport {
    FailAll(NoteDirect(t, id, p), losers, true)
  }

  function RemoveDirect(t: Transport, id: ConnId): Transport {
    if id !in t.directByConn then t
    else t.(directByConn := t.directByConn - {id}, directByPeer := DropDirect(t.directByPeer, id, t.directByConn[id]))
  }

  // ---- bridges ----

  /** Bytes read from a bridge; a session that fails on them tears its circuit down. */
  function InjectData(t: Transport, key: Key, step: SessionStep): Transport {
    if key !in t.bridgeIndex || t.bridgeIndex[key] !in t.circuits then t
    else
      var id := t.bridgeIndex[key];
      var preReady := !t.circuits[id].ready;
      var t1 := AfterPump(t, id, step.outputs);
      if step.fate.Fine? && Pump(t, id, step.outputs).ok then t1
      else FailCircuit(t1, id, preReady || !(step.fate.Fatal? && step.fate.graceful))
  }

  function InjectFin(t: Transport, key: Key): Transport {
    if key !in t.bridgeIndex || t.bridgeIndex[key] !in t.circuits then t
    else FailCircuit(t, t.bridgeIndex[key], !t.circuits[t.bridgeIndex[key]].ready)
  }

  function InjectClosed(t: Transport, key: Key): Transport {
    InjectFin(ReleaseBridge(t, key), key)
  }

  datatype Adoption = Adoption(key: Key, relay: Peer, remote: Peer, role: Role, finished: bool, hasData: bool)

  /** `IndexPanic` stands for the panic on an index entry without its circuit. */
  datatype AdoptError =
    | ConflictingAdoption | PeerAlreadyDirect | RemoteClosed | UnknownConnection | NoEntropy | IdsExhausted | IndexPanic

  /** A call on a live session whose own error skips the pump. */
  function Drive(t: Transport, id: ConnId, step: SessionStep, emit: bool): Transport
    requires id in t.circuits
  {
    if !step.fate.Fine? then FailCircuit(t, id, emit)
    else
      var t1 := AfterPump(t, id, step.outputs);
      if Pump(t, id, step.outputs).ok then t1 else FailCircuit(t1, id, true)
  }

  /** The new circuit before its session starts. */
  function Enter(t: Transport, a: Adoption, id: ConnId): Transport {
    var t1 := t.(nextId := t.nextId + 1, bridgeIndex := t.bridgeIndex[a.key := id], roles := t.roles[id := a.role],
                 circuits := t.circuits[id := Circuit(a.key, a.relay, a.remote, a.role, false)]);
    Push(t1, if a.role.Responder? then [IncomingConnection(id)] else [])
  }

  function Adopt(t: Transport, a: Adoption, entropy: bool, start: SessionStep, feed: SessionStep)
    : (Transport, Result<ConnId, AdoptError>)
  {
    if a.key in t.bridgeIndex && t.bridgeIndex[a.key] !in t.circuits then (t, Err(IndexPanic))
    else if a.key in t.bridgeIndex then
      var id := t.bridgeIndex[a.key];
      var c := t.circuits[id];
      if a.finished || a.relay != c.relay || a.remote != c.remote || a.role != c.role then (t, Err(ConflictingAdoption))
      else (t, Ok(id))
    else if a.finished then (t, Err(RemoteClosed))
    else if a.key.conn !in t.activeInner then (t, Err(UnknownConnection))
    else if IsDirect(t, a.remote) then (t, Err(PeerAlreadyDirect))
    else if t.nextId > MAX_SEQUENCE then (t, Err(IdsExhausted))
    else if !entropy then (t, Err(NoEntropy))
    else
      var id := ConnId(true, t.nextId);
      var t1 := Enter(t, a, id);
      var t2 := Drive(t1, id, start, true);
      var started := start.fate.Fine? && Pump(t1, id, start.outputs).ok;
      (if started && a.hasData then InjectData(t2, a.key, feed) else t2, Ok(id))
  }

  // ---- events of the wrapped transport ----

  function EventId(e: Event): Option<ConnId> {
    if e.Listening? then None else Some(e.id)
  }

  /** A connection of the wrapped transport closed under its circuits. */
  function InnerClosed(t: Transport, id: ConnId, riding: seq<ConnId>): Transport {
    var t1 := RemoveDirect(t.(activeInner := t.activeInner - {id}), id);
    Push(ReleaseConn(FailAll(t1, riding, false), id), [Closed(id)])
  }

  /** `handle_inner_event`; `visit` lists the circuits it tears down, `step` the session's answer to data. */
  function HandleInner(t: Transport, e: Event, visit: seq<ConnId>, step: SessionStep): Transport {
    if EventId(e).Some? && EventId(e).value.isCircuit then
      Push(RemoveDirect(t.(activeInner := t.activeInner - {e.id}), e.id), [Error(e.id)])
    else
      match e
      case IncomingConnection(id) => Push(t.(activeInner := t.activeInner + {id}), [e])
      case Connected(id, peer) =>
        var t1 := t.(activeInner := t.activeInner + {id});
        Push(if peer.Some? then RecordDirect(t1, id, peer.value, visit) else t1, [e])
      case Verified(id, peer) => Push(if peer.Some? then RecordDirect(t, id, peer.value, visit) else t, [e])
      case StreamData(id, s) =>
        if Key(id, s) in t.bridgeIndex then InjectData(t, Key(id, s), step)
        else if Key(id, s) in t.retired then t
        else Push(t, [e])
      case RemoteWriteClosed(id, s) =>
        if Key(id, s) in t.bridgeIndex then InjectFin(t, Key(id, s))
        else if Key(id, s) in t.retired then t
        else Push(t, [e])
      case StreamClosed(id, s) =>
        if Key(id, s) in t.bridgeIndex || Key(id, s) in t.retired then InjectClosed(t, Key(id, s))
        else Push(t, [e])
      case Closed(id) => InnerClosed(t, id, visit)
      case _ => Push(t, [e])
  }

  // ---- calls on circuit connections ----

  /** `operate_session`, with the stream a successful open yields. */
  function Operate(t: Transport, id: ConnId, step: SessionStep, newStream: Option<nat>): Transport {
    if id !in t.circuits then t
    else
      var t1 := AfterPump(t, id, step.outputs);
      if !Pump(t, id, step.outputs).ok || step.fate.Fatal? then FailCircuit(t1, id, false)
      else if step.fate.Fine? && newStream.Some? then Push(t1, [StreamOpened(id, newStream.value)])
      else t1
  }

  function CloseCircuit(t: Transport, id: ConnId, outputs: seq<Output>): Transport {
    if id !in t.circuits then t else FailCircuit(Push(t, Pump(t, id, outputs).events), id, false)
  }

  /** The timer visit of an established circuit during `poll`. */
  function PollSession(t: Transport, id: ConnId, step: SessionStep): Transport {
    if id !in t.circuits || !t.circuits[id].ready then t
    else Drive(t, id, step, !(step.fate.Fatal? && step.fate.graceful))
  }

  /** Handing the queued events to the caller. */
  function Drain(t: Transport): Transport {
    t.(pending := [], delivered := t.delivered + t.pending)
  }
}
