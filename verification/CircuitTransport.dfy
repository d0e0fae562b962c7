/**
 `CircuitTransport` with its cross-indexed maps updated in place (crates/circuit/src/lib.rs),
 every method proved against `Circuit`.
 */
module CircuitTransport {
  import opened Bytes
  import opened Sequences
  import opened Circuit
  import S = CircuitSteps

  // ---- map order ----

  predicate Before(a: ConnId, b: ConnId) {
    (!a.isCircuit && b.isCircuit) || (a.isCircuit == b.isCircuit && a.sequence <= b.sequence)
  }

  lemma FirstExists(s: set<ConnId>)
    requires s != {}
    ensures exists x :: x in s && forall y | y in s :: Before(x, y)
    decreases |s|
  {
    var x :| x in s;
    if s - {x} == {} {
      assert s == {x};
    } else {
      FirstExists(s - {x});
      var m :| m in s - {x} && forall y | y in s - {x} :: Before(m, y);
      var first := if Before(m, x) then m else x;
      forall y | y in s
        ensures Before(first, y)
      {
        assert y == x || y in s - {x};
      }
      assert first in s;
    }
  }

  method FirstOf(s: set<ConnId>) returns (x: ConnId)
    requires s != {}
    ensures x in s && forall y | y in s :: Before(x, y)
  {
    FirstExists(s);
    x :| x in s && forall y | y in s :: Before(x, y);
  }

  predicate InOrder(s: seq<ConnId>) {
    forall i, j | 0 <= i < j < |s| :: Before(s[i], s[j]) && s[i] != s[j]
  }

  lemma InOrderSnoc(s: seq<ConnId>, x: ConnId)
    requires InOrder(s) && (s != [] ==> Before(s[|s| - 1], x)) && x !in s
    ensures InOrder(s + [x])
  {
    forall i | 0 <= i < |s|
      ensures Before(s[i], x)
    {
      assert i < |s| - 1 ==> Before(s[i], s[|s| - 1]);
    }
  }

  /** The ids in the order the map iterates. */
  method Sorted(ids: set<ConnId>) returns (r: seq<ConnId>)
    ensures InOrder(r) && forall x :: x in r <==> x in ids
  {
    hide Before, InOrder;
    r := [];
    InOrderEmpty();
    var todo := ids;
    while todo != {}
      invariant todo <= ids && InOrder(r)
      invariant forall x :: x in r <==> x in ids && x !in todo
      invariant r != [] ==> forall y | y in todo :: Before(r[|r| - 1], y)
      decreases |todo|
    {
      var x := FirstOf(todo);
      InOrderSnoc(r, x);
      r := r + [x];
      todo := todo - {x};
    }
  }

  lemma InOrderEmpty()
    ensures InOrder([])
  {
  }

  /** The first `i` outputs gave `done`, and the rest is still to come. */
  ghost predicate Continues(t: Transport, id: ConnId, outputs: seq<Output>, done: seq<Event>, i: nat)
    requires i <= |outputs|
  {
    var rest := Pump(t, id, outputs[i..]);
    Pump(t, id, outputs) == Pumped(done + rest.events, rest.ok)
  }

  function EventFor(id: ConnId, o: Output): Event
    requires !o.Write?
  {
    if o.Established? then Connected(id, Some(o.peer)) else StreamEvent(id, o)
  }

  lemma ContinuesStep(t: Transport, id: ConnId, outputs: seq<Output>, done: seq<Event>, i: nat)
    requires i < |outputs| && Continues(t, id, outputs, done, i)
    ensures var o := outputs[i];
            if o.Write? && o.ok then Continues(t, id, outputs, done, i + 1)
            else if o.Write? || (o.Established? && IsDirect(t, o.peer)) then Pump(t, id, outputs) == Pumped(done, false)
            else Continues(t, id, outputs, done + [EventFor(id, o)], i + 1)
  {
    hide IsDirect, StreamEvent;
    assert outputs[i..][1..] == outputs[i + 1..];
    var o, rest := outputs[i], Pump(t, id, outputs[i + 1..]);
    assert done + [] == done;
    if !o.Write? {
      assert done + ([EventFor(id, o)] + rest.events) == (done + [EventFor(id, o)]) + rest.events;
    }
  }

  lemma ContinuesEnds(t: Transport, id: ConnId, outputs: seq<Output>, done: seq<Event>)
    ensures Continues(t, id, outputs, [], 0)
    ensures Continues(t, id, outputs, done, |outputs|) ==> Pump(t, id, outputs) == Pumped(done, true)
  {
    assert outputs[0..] == outputs && outputs[|outputs|..] == [];
    assert [] + Pump(t, id, outputs).events == Pump(t, id, outputs).events;
    assert done + [] == done;
  }

  class CircuitTransport {
    var circuits: map<ConnId, Circuit>
    var bridgeIndex: map<Key, ConnId>
    var retired: set<Key>
    var retiredOrder: seq<Key>
    var activeInner: set<ConnId>
    var directByPeer: map<Peer, set<ConnId>>
    var directByConn: map<ConnId, Peer>
    var pending: seq<Event>
    var nextId: nat
    ghost var delivered: seq<Event>
    ghost var roles: map<ConnId, Role>

    ghost function State(): Transport
      reads this
    {
      Transport(circuits, bridgeIndex, retired, retiredOrder, activeInner, directByPeer, directByConn,
                pending, nextId, delivered, roles)
    }

    constructor ()
      ensures State() == NEW
    {
      circuits, bridgeIndex, retired, retiredOrder, activeInner := map[], map[], {}, [], {};
      directByPeer, directByConn, pending, nextId := map[], map[], [], 1;
      delivered, roles := [], map[];
    }

    // ---- sessions ----

    method PumpOutputs(id: ConnId, outputs: seq<Output>) returns (ok: bool)
      modifies this`pending
      ensures ok == Pump(old(State()), id, outputs).ok
      ensures State() == Push(old(State()), Pump(old(State()), id, outputs).events)
    {
      hide StreamEvent, EventFor, Pump, Continues;
      ghost var t := State();
      ghost var done: seq<Event> := [];
      var i := 0;
      ContinuesEnds(t, id, outputs, []);
      while i < |outputs|
        invariant 0 <= i <= |outputs|
        invariant State() == Push(t, done)
        invariant Continues(t, id, outputs, done, i)
      {
        ContinuesStep(t, id, outputs, done, i);
        var o := outputs[i];
        if o.Write? {
          if !o.ok {
            return false;
          }
        } else {
          if o.Established? && IsDirectNow(o.peer) {
            return false;
          }
          pending := pending + [EventFor(id, o)];
          done := done + [EventFor(id, o)];
        }
        i := i + 1;
      }
      ContinuesEnds(t, id, outputs, done);
      return true;
    }

    predicate IsDirectNow(p: Peer)
      reads this
      ensures IsDirectNow(p) == IsDirect(State(), p)
    {
      p in directByPeer && directByPeer[p] != {}
    }

    /** Takes the circuit out, pumps its session and puts it back. */
    method WithCircuit(id: ConnId, outputs: seq<Output>) returns (ok: bool)
      requires id in circuits
      modifies this`pending, this`circuits
      ensures ok == Pump(old(State()), id, outputs).ok
      ensures State() == AfterPump(old(State()), id, outputs)
    {
      hide Pump, Establishes;
      var c := circuits[id];
      circuits := circuits - {id};
      PumpSame(old(State()), State(), id, outputs);
      ok := PumpOutputs(id, outputs);
      circuits := circuits[id := c.(ready := c.ready || Establishes(outputs))];
      assert circuits == old(circuits)[id := c.(ready := c.ready || Establishes(outputs))];
    }

    // ---- tombstones and teardown ----

    method RetireKey(key: Key)
      modifies this`retired, this`retiredOrder
      ensures State() == RetireBridge(old(State()), key)
    {
      if key in retired {
        return;
      }
      retired := retired + {key};
      retiredOrder := retiredOrder + [key];
      if |retiredOrder| > MAX_RETIRED {
        retired := retired - {retiredOrder[0]};
        retiredOrder := retiredOrder[1..];
      }
    }

    method ReleaseKey(key: Key)
      modifies this`retired, this`retiredOrder
      ensures State() == ReleaseBridge(old(State()), key)
    {
      if key in retired {
        retired := retired - {key};
        retiredOrder := Without(retiredOrder, key);
      }
    }

    method ReleaseKeysOf(id: ConnId)
      modifies this`retired, this`retiredOrder
      ensures State() == ReleaseConn(old(State()), id)
    {
      retired := set k | k in retired && k.conn != id;
      retiredOrder := ForgetConn(retiredOrder, id);
    }

    method Fail(id: ConnId, emit: bool)
      modifies this
      ensures State() == FailCircuit(old(State()), id, emit)
    {
      hide Retire;
      if id !in circuits {
        return;
      }
      var key := circuits[id].key;
      circuits := circuits - {id};
      bridgeIndex := bridgeIndex - {key};
      RetireKey(key);
      ghost var queued := pending;
      if emit {
        pending := pending + [Error(id)];
      }
      pending := pending + [Closed(id)];
      assert pending == queued + ((if emit then [Error(id)] else []) + [Closed(id)]);
    }

    method FailEach(ids: seq<ConnId>, always: bool)
      modifies this
      ensures State() == FailAll(old(State()), ids, always)
    {
      hide FailCircuit;
      for i := 0 to |ids|
        invariant State() == FailAll(old(State()), ids[..i], always)
      {
        assert ids[..i + 1][..i] == ids[..i];
        Fail(ids[i], always || (ids[i] in circuits && !circuits[ids[i]].ready));
      }
      assert ids[..|ids|] == ids;
    }

    // ---- direct connections ----

    method ForgetDirect(id: ConnId, p: Peer)
      modifies this`directByPeer
      ensures directByPeer == DropDirect(old(directByPeer), id, p)
    {
      if p in directByPeer {
        var ids := directByPeer[p] - {id};
        if ids == {} {
          directByPeer := directByPeer - {p};
        } else {
          directByPeer := directByPeer[p := ids];
        }
      }
    }

    method RecordDirectConn(id: ConnId, p: Peer) returns (ghost losers: seq<ConnId>)
      modifies this
      ensures InOrder(losers) && forall x :: x in losers <==> Loses(old(State()), p, x)
      ensures State() == RecordDirect(old(State()), id, p, losers)
    {
      hide FailAll;
      if id in directByConn && directByConn[id] != p {
        ForgetDirect(id, directByConn[id]);
      }
      directByConn := directByConn[id := p];
      directByPeer := directByPeer[p := (if p in directByPeer then directByPeer[p] else {}) + {id}];
      var losing := set x | x in circuits && !circuits[x].ready && circuits[x].remote == p;
      var ids := Sorted(losing);
      losers := ids;
      assert State() == NoteDirect(old(State()), id, p);
      FailEach(ids, true);
    }

    method RemoveDirectConn(id: ConnId)
      modifies this`directByConn, this`directByPeer
      ensures State() == RemoveDirect(old(State()), id)
    {
      if id in directByConn {
        var p := directByConn[id];
        directByConn := directByConn - {id};
        ForgetDirect(id, p);
      }
    }

    // ---- bridges ----

    method InjectBridgeData(key: Key, step: SessionStep)
      modifies this
      ensures State() == InjectData(old(State()), key, step)
    {
      hide FailCircuit, Pump, AfterPump;
      if key !in bridgeIndex || bridgeIndex[key] !in circuits {
        return;
      }
      var id := bridgeIndex[key];
      var preReady := !circuits[id].ready;
      var ok := WithCircuit(id, step.outputs);
      if !step.fate.Fine? || !ok {
        Fail(id, preReady || !(step.fate.Fatal? && step.fate.graceful));
      }
    }

    method InjectBridgeFin(key: Key)
      modifies this
      ensures State() == InjectFin(old(State()), key)
    {
      hide FailCircuit;
      if key in bridgeIndex && bridgeIndex[key] in circuits {
        Fail(bridgeIndex[key], !circuits[bridgeIndex[key]].ready);
      }
    }

    method InjectBridgeClosed(key: Key)
      modifies this
      ensures State() == InjectClosed(old(State()), key)
    {
      hide InjectFin, ReleaseBridge;
      ReleaseKey(key);
      InjectBridgeFin(key);
    }

    /** Starts or times a live session; an error of the call itself skips the pump. */
    method DriveSession(id: ConnId, step: SessionStep, emit: bool) returns (ok: bool)
      requires id in circuits
      modifies this
      ensures State() == Drive(old(State()), id, step, emit)
      ensures ok == (step.fate.Fine? && Pump(old(State()), id, step.outputs).ok)
    {
      hide FailCircuit, Pump, AfterPump;
      if !step.fate.Fine? {
        Fail(id, emit);
        return false;
      }
      ok := WithCircuit(id, step.outputs);
      if !ok {
        Fail(id, true);
      }
    }

    /** Takes the next id and enters the negotiating circuit under it. */
    method OpenCircuit(a: Adoption) returns (id: ConnId)
      modifies this
      ensures id == ConnId(true, old(nextId)) && id in circuits
      ensures State() == Enter(old(State()), a, id)
    {
      id := ConnId(true, nextId);
      nextId := nextId + 1;
      bridgeIndex := bridgeIndex[a.key := id];
      if a.role.Responder? {
        pending := pending + [IncomingConnection(id)];
      } else {
        assert pending + [] == pending;
      }
      circuits := circuits[id := Circuit(a.key, a.relay, a.remote, a.role, false)];
      roles := roles[id := a.role];
    }

    method AdoptBridge(a: Adoption, entropy: bool, start: SessionStep, feed: SessionStep)
      returns (r: Result<ConnId, AdoptError>)
      modifies this
      ensures (State(), r) == Adopt(old(State()), a, entropy, start, feed)
    {
      hide Pump, Drive, InjectData, IsDirect, Enter;
      if a.key in bridgeIndex {
        var id := bridgeIndex[a.key];
        if id !in circuits {
          return Err(IndexPanic);
        }
        var c := circuits[id];
        if a.finished || a.relay != c.relay || a.remote != c.remote || a.role != c.role {
          return Err(ConflictingAdoption);
        }
        return Ok(id);
      }
      if a.finished {
        return Err(RemoteClosed);
      }
      if a.key.conn !in activeInner {
        return Err(UnknownConnection);
      }
      if IsDirectNow(a.remote) {
        return Err(PeerAlreadyDirect);
      }
      if nextId > MAX_SEQUENCE {
        return Err(IdsExhausted);
      }
      if !entropy {
        return Err(NoEntropy);
      }
      var id := OpenCircuit(a);
      var ok := DriveSession(id, start, true);
      if ok && a.hasData {
        InjectBridgeData(a.key, feed);
      }
      return Ok(id);
    }

    // ---- events of the wrapped transport ----

    method OnInnerClosed(id: ConnId) returns (ghost riding: seq<ConnId>)
      modifies this
      ensures InOrder(riding) && forall x :: x in riding <==> S.Rides(old(State()), id, x)
      ensures State() == InnerClosed(old(State()), id, riding)
    {
      hide FailAll, RemoveDirect, ReleaseConn;
      activeInner := activeInner - {id};
      RemoveDirectConn(id);
      var on := set x | x in circuits && circuits[x].key.conn == id;
      assert circuits == old(circuits) by {
        S.RemoveKeys(old(State()).(activeInner := old(activeInner) - {id}), id);
      }
      var ids := Sorted(on);
      riding := ids;
      FailEach(ids, false);
      ReleaseKeysOf(id);
      pending := pending + [Closed(id)];
    }

    method OnInnerEvent(e: Event, step: SessionStep) returns (ghost visit: seq<ConnId>)
      modifies this
      ensures State() == HandleInner(old(State()), e, visit, step)
      ensures S.LegalVisit(old(State()), e, visit)
    {
      hide RecordDirect, RemoveDirect, InnerClosed, InjectData, InjectFin, InjectClosed;
      visit := [];
      if EventId(e).Some? && EventId(e).value.isCircuit {
        activeInner := activeInner - {e.id};
        RemoveDirectConn(e.id);
        pending := pending + [Error(e.id)];
        return;
      }
      match e
      case IncomingConnection(id) =>
        activeInner := activeInner + {id};
        pending := pending + [e];
      case Connected(id, peer) =>
        activeInner := activeInner + {id};
        if peer.Some? {
          visit := RecordDirectConn(id, peer.value);
        }
        pending := pending + [e];
      case Verified(id, peer) =>
        if peer.Some? {
          visit := RecordDirectConn(id, peer.value);
        }
        pending := pending + [e];
      case StreamData(id, s) =>
        if Key(id, s) in bridgeIndex {
          InjectBridgeData(Key(id, s), step);
        } else if Key(id, s) !in retired {
          pending := pending + [e];
        }
      case RemoteWriteClosed(id, s) =>
        if Key(id, s) in bridgeIndex {
          InjectBridgeFin(Key(id, s));
        } else if Key(id, s) !in retired {
          pending := pending + [e];
        }
      case StreamClosed(id, s) =>
        if Key(id, s) in bridgeIndex || Key(id, s) in retired {
          InjectBridgeClosed(Key(id, s));
        } else {
          pending := pending + [e];
        }
      case Closed(id) =>
        visit := OnInnerClosed(id);
      case _ =>
        pending := pending + [e];
    }

    // ---- calls on circuit connections ----

    method OperateSession(id: ConnId, step: SessionStep, newStream: Option<nat>) returns (ok: bool)
      modifies this
      ensures State() == Operate(old(State()), id, step, newStream)
      ensures ok <==> id in old(circuits) && step.fate.Fine? && Pump(old(State()), id, step.outputs).ok
      ensures id in old(circuits) ==> (id !in circuits <==> step.fate.Fatal? || !Pump(old(State()), id, step.outputs).ok)
    {
      hide FailCircuit, Pump, Establishes;
      if id !in circuits {
        return false;
      }
      var pumped := WithCircuit(id, step.outputs);
      if !pumped || step.fate.Fatal? {
        ghost var t := State();
        Fail(id, false);
        FailRemoves(t, id, false);
        return false;
      }
      if step.fate.Fine? && newStream.Some? {
        pending := pending + [StreamOpened(id, newStream.value)];
      }
      return step.fate.Fine?;
    }

    method Close(id: ConnId, outputs: seq<Output>) returns (known: bool)
      modifies this
      ensures known == (id in old(circuits))
      ensures State() == CloseCircuit(old(State()), id, outputs)
    {
      hide Retire, Pump;
      if id !in circuits {
        return false;
      }
      var key := circuits[id].key;
      circuits := circuits - {id};
      bridgeIndex := bridgeIndex - {key};
      RetireKey(key);
      PumpSame(old(State()), State(), id, outputs);
      var flushed := PumpOutputs(id, outputs);
      pending := pending + [Closed(id)];
      ghost var events := Pump(old(State()), id, outputs).events;
      assert pending == old(pending) + events + ([] + [Closed(id)]);
      return true;
    }

    method PollCircuit(id: ConnId, step: SessionStep)
      modifies this
      ensures State() == PollSession(old(State()), id, step)
    {
      hide Drive;
      if id in circuits && circuits[id].ready {
        var ok := DriveSession(id, step, !(step.fate.Fatal? && step.fate.graceful));
      }
    }

    method DrainPending() returns (events: seq<Event>)
      modifies this`pending, this`delivered
      ensures events == old(pending)
      ensures State() == Drain(old(State()))
    {
      events := pending;
      delivered := delivered + pending;
      pending := [];
    }
  }

  /** Pumping reads only the direct map. */
  lemma {:induction false} PumpSame(t: Transport, t': Transport, id: ConnId, outputs: seq<Output>)
    requires t'.directByPeer == t.directByPeer
    ensures Pump(t', id, outputs) == Pump(t, id, outputs)
    decreases |outputs|
  {
    if outputs != [] {
      PumpSame(t, t', id, outputs[1..]);
    }
  }

  lemma FailRemoves(t: Transport, id: ConnId, emit: bool)
    ensures id !in FailCircuit(t, id, emit).circuits
  {
    hide Retire;
  }
}
