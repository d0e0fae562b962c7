/**
 Every operation of the circuit transport keeps the invariant of `CircuitRuns`, and the
 theorems over whole runs.
 */
module CircuitSteps {
  import opened Bytes
  import opened Sequences
  import opened Circuit
  import opened CircuitRuns

  // ---- session calls ----

  lemma AfterPumpFeed(t: Transport, x: ConnId, outputs: seq<Output>)
    requires x in t.circuits
    ensures Feed(AfterPump(t, x, outputs)) == Feed(t) + Pump(t, x, outputs).events
  {
    hide Pump;
  }

  lemma AfterPumpStruct(t: Transport, x: ConnId, outputs: seq<Output>)
    requires Struct(t) && x in t.circuits
    ensures Struct(AfterPump(t, x, outputs))
  {
    hide DirectOk, RetiredOk, Pump, Establishes;
    var t' := AfterPump(t, x, outputs);
    DirectFrame(t, t');
    RetiredFrame(t, t');
    forall id
      ensures CircuitAt(t', id)
    {
      assert CircuitAt(t, id);
    }
    forall k
      ensures IndexAt(t', k)
    {
      assert IndexAt(t, k);
    }
  }

  lemma AfterPumpOthers(t: Transport, x: ConnId, outputs: seq<Output>, id: ConnId)
    requires x in t.circuits && id != x
    ensures TraceAt(t, id) ==> TraceAt(AfterPump(t, x, outputs), id)
    ensures ArbitratedAt(t, id) ==> ArbitratedAt(AfterPump(t, x, outputs), id)
  {
    hide Pump, Establishes, TraceOf, Feed;
    AfterPumpFeed(t, x, outputs);
    PumpIds(t, x, outputs);
    TraceAppend(Feed(t), Pump(t, x, outputs).events, id);
  }

  lemma AfterPumpOwn(t: Transport, x: ConnId, outputs: seq<Output>)
    requires x in t.circuits && x.isCircuit && TraceAt(t, x)
    requires LegalFrom(t.circuits[x].ready, t.circuits[x].remote, outputs)
    ensures OpenAt(AfterPump(t, x, outputs), x)
    ensures Pump(t, x, outputs).ok ==> TraceAt(AfterPump(t, x, outputs), x)
  {
    hide Pump, Establishes, TraceOf, FoldTrace, Feed, LegalFrom;
    var c := t.circuits[x];
    AfterPumpFeed(t, x, outputs);
    PumpIds(t, x, outputs);
    TraceFold(Feed(t), Pump(t, x, outputs).events, x);
    PumpTrace(t, x, c.ready, c.remote, outputs, TraceOf(Feed(t), x));
  }

  lemma AfterPumpArbitrated(t: Transport, x: ConnId, outputs: seq<Output>)
    requires x in t.circuits && ArbitratedAt(t, x)
    ensures ArbitratedAt(AfterPump(t, x, outputs), x)
  {
    hide Pump, Establishes;
  }

  /** A session call leaves its circuit open, and complete pumps keep the whole invariant. */
  lemma SessionInv(t: Transport, x: ConnId, outputs: seq<Output>, calm: bool)
    requires Inv(t, calm) && x in t.circuits && LegalFrom(t.circuits[x].ready, t.circuits[x].remote, outputs)
    ensures InvBut(AfterPump(t, x, outputs), x, calm)
    ensures Pump(t, x, outputs).ok ==> Inv(AfterPump(t, x, outputs), calm)
  {
    hide Struct, TraceAt, ArbitratedAt, OpenAt, LegalFrom, Pump, Establishes;
    AfterPumpStruct(t, x, outputs);
    RolesKnown(t, x);
    AfterPumpArbitrated(t, x, outputs);
    if calm {
      AfterPumpOwn(t, x, outputs);
    }
    forall id | id != x
      ensures ArbitratedAt(AfterPump(t, x, outputs), id) && (calm ==> TraceAt(AfterPump(t, x, outputs), id))
    {
      AfterPumpOthers(t, x, outputs, id);
    }
  }

  predicate LegalStep(t: Transport, id: ConnId, outputs: seq<Output>) {
    id in t.circuits ==> LegalFrom(t.circuits[id].ready, t.circuits[id].remote, outputs)
  }

  lemma DriveInv(t: Transport, x: ConnId, step: SessionStep, emit: bool, calm: bool)
    requires Inv(t, calm) && x in t.circuits && LegalStep(t, x, step.outputs)
    ensures Inv(Drive(t, x, step, emit), calm)
  {
    hide Inv, InvBut, AfterPump, FailCircuit, Pump, LegalFrom;
    FailOneInv(t, x, emit, calm);
    SessionInv(t, x, step.outputs, calm);
    FailInv(AfterPump(t, x, step.outputs), x, true, calm);
  }

  lemma InjectDataInv(t: Transport, key: Key, step: SessionStep, calm: bool)
    requires Inv(t, calm) && (key in t.bridgeIndex ==> LegalStep(t, t.bridgeIndex[key], step.outputs))
    ensures Inv(InjectData(t, key, step), calm)
  {
    hide Inv, InvBut, AfterPump, FailCircuit, Pump, LegalFrom;
    if key in t.bridgeIndex && t.bridgeIndex[key] in t.circuits {
      var x := t.bridgeIndex[key];
      SessionInv(t, x, step.outputs, calm);
      FailInv(AfterPump(t, x, step.outputs), x, !t.circuits[x].ready || !(step.fate.Fatal? && step.fate.graceful), calm);
    }
  }

  lemma InjectFinInv(t: Transport, key: Key, calm: bool)
    requires Inv(t, calm)
    ensures Inv(InjectFin(t, key), calm)
  {
    hide Inv, FailCircuit;
    if key in t.bridgeIndex && t.bridgeIndex[key] in t.circuits {
      FailOneInv(t, t.bridgeIndex[key], !t.circuits[t.bridgeIndex[key]].ready, calm);
    }
  }

  lemma InjectClosedInv(t: Transport, key: Key, calm: bool)
    requires Inv(t, calm)
    ensures Inv(InjectClosed(t, key), calm)
  {
    hide Inv, InjectFin, Without;
    InvRetired(t, calm);
    ReleaseOk(t, key, key.conn);
    assert Feed(ReleaseBridge(t, key)) == Feed(t) + [];
    QuietInv(t, ReleaseBridge(t, key), [], calm);
    InjectFinInv(ReleaseBridge(t, key), key, calm);
  }

  /** A stream can only be opened on an established circuit. */
  predicate LegalOpen(t: Transport, id: ConnId, step: SessionStep, newStream: Option<nat>) {
    id in t.circuits && newStream.Some? && step.fate.Fine? ==> t.circuits[id].ready
  }

  lemma OpenedInv(t: Transport, x: ConnId, stream: nat, calm: bool)
    requires Inv(t, calm) && x in t.circuits && t.circuits[x].ready
    ensures Inv(Push(t, [StreamOpened(x, stream)]), calm)
  {
    hide Struct, TraceOf, RetiredOk, Feed;
    var t', e := Push(t, [StreamOpened(x, stream)]), StreamOpened(x, stream);
    FeedPush(t, [e]);
    InvRetired(t, calm);
    RetiredFrame(t, t');
    StructFrame(t, t');
    forall id
      ensures ArbitratedAt(t', id) && (calm ==> TraceAt(t', id))
    {
      assert ArbitratedAt(t, id);
      if calm {
        assert TraceAt(t, id);
        TraceSnoc(Feed(t), e, id);
      }
    }
  }

  lemma OperateInv(t: Transport, x: ConnId, step: SessionStep, newStream: Option<nat>, calm: bool)
    requires Inv(t, calm) && LegalStep(t, x, step.outputs) && LegalOpen(t, x, step, newStream)
    ensures Inv(Operate(t, x, step, newStream), calm)
  {
    hide Inv, InvBut, FailCircuit, Pump, LegalFrom, Push;
    if x in t.circuits {
      SessionInv(t, x, step.outputs, calm);
      var t1 := AfterPump(t, x, step.outputs);
      FailInv(t1, x, false, calm);
      if Pump(t, x, step.outputs).ok && step.fate.Fine? && newStream.Some? {
        OpenedInv(t1, x, newStream.value, calm);
      }
    }
  }

  lemma CloseInv(t: Transport, x: ConnId, outputs: seq<Output>, calm: bool)
    requires Inv(t, calm) && LegalStep(t, x, outputs)
    ensures Inv(CloseCircuit(t, x, outputs), calm)
  {
    hide Inv, InvBut, FailCircuit, Pump, LegalFrom, Establishes;
    if x in t.circuits {
      SessionInv(t, x, outputs, calm);
      FailInv(AfterPump(t, x, outputs), x, false, calm);
      CloseSame(t, x, outputs);
    }
  }

  /** Whether the dying session counted as established makes no difference. */
  lemma CloseSame(t: Transport, x: ConnId, outputs: seq<Output>)
    requires x in t.circuits
    ensures CloseCircuit(t, x, outputs) == FailCircuit(AfterPump(t, x, outputs), x, false)
  {
    hide Retire, Pump, Establishes;
    assert AfterPump(t, x, outputs).circuits - {x} == t.circuits - {x};
  }

  /** A circuit that data ends without an error event was established and said goodbye. */
  lemma SilentOnlyAfterGoodbye(t: Transport, key: Key, step: SessionStep)
    requires key in t.bridgeIndex && t.bridgeIndex[key] in t.circuits
    ensures var id := t.bridgeIndex[key]; var r := InjectData(t, key, step);
            var reported := Error(id) in r.pending[|t.pending|..];
            && |t.pending| <= |r.pending|
            && (id !in r.circuits ==> (!reported <==> t.circuits[id].ready && step.fate.Fatal? && step.fate.graceful))
            && (id in r.circuits ==> !reported)
  {
    hide Retire, Establishes, Pump;
    var id := t.bridgeIndex[key];
    var events := Pump(t, id, step.outputs).events;
    NoErrors(t, id, step.outputs);
    var r := InjectData(t, key, step);
    if id in r.circuits {
      assert r.pending[|t.pending|..] == events;
    } else {
      var emit := !t.circuits[id].ready || !(step.fate.Fatal? && step.fate.graceful);
      assert r.pending[|t.pending|..] == events + ((if emit then [Error(id)] else []) + [Closed(id)]);
    }
  }

  lemma {:induction false} NoErrors(t: Transport, id: ConnId, outputs: seq<Output>)
    ensures Error(id) !in Pump(t, id, outputs).events
    decreases |outputs|
  {
    hide IsDirect;
    if outputs != [] {
      NoErrors(t, id, outputs[1..]);
    }
  }

  // ---- direct connections ----

  /** The teardown of circuits reads neither the direct maps nor the active set. */
  lemma {:induction false} FailAllFrame(t: Transport, t': Transport, ids: seq<ConnId>, always: bool)
    requires t' == t.(activeInner := t'.activeInner, directByPeer := t'.directByPeer, directByConn := t'.directByConn)
    ensures FailAll(t', ids, always)
            == FailAll(t, ids, always).(activeInner := t'.activeInner, directByPeer := t'.directByPeer, directByConn := t'.directByConn)
    ensures FailAll(t, ids, always).activeInner == t.activeInner
    ensures FailAll(t, ids, always).directByPeer == t.directByPeer && FailAll(t, ids, always).directByConn == t.directByConn
  {
    hide FailCircuit;
    if ids != [] {
      var init, last := ids[..|ids| - 1], ids[|ids| - 1];
      FailAllFrame(t, t', init, always);
      var a, b := FailAll(t, init, always), FailAll(t', init, always);
      FailFrame(a, b, last, always || (last in a.circuits && !a.circuits[last].ready));
    }
  }

  predicate Rewired(t: Transport, t': Transport) {
    t' == t.(activeInner := t'.activeInner, directByPeer := t'.directByPeer, directByConn := t'.directByConn)
  }

  lemma FailFrame(t: Transport, t': Transport, x: ConnId, emit: bool)
    requires Rewired(t, t')
    ensures FailCircuit(t', x, emit)
            == FailCircuit(t, x, emit).(activeInner := t'.activeInner, directByPeer := t'.directByPeer, directByConn := t'.directByConn)
    ensures FailCircuit(t, x, emit).activeInner == t.activeInner
    ensures FailCircuit(t, x, emit).directByPeer == t.directByPeer && FailCircuit(t, x, emit).directByConn == t.directByConn
  {
    hide Retire;
  }

  /** Changing the direct maps or the active set of a state whose circuits allow it. */
  lemma RewireInv(t: Transport, t': Transport, calm: bool)
    requires Inv(t, calm) && DirectOk(t')
    requires t' == t.(activeInner := t'.activeInner, directByPeer := t'.directByPeer, directByConn := t'.directByConn)
    requires forall id | id in t.circuits :: t.circuits[id].key.conn in t'.activeInner
    requires forall id | id in t.circuits && !t.circuits[id].ready :: t.circuits[id].remote !in t'.directByPeer
    requires forall c | c in t'.activeInner :: !c.isCircuit
    ensures Inv(t', calm)
  {
    hide DirectOk, RetiredOk, TraceOf;
    RetiredFrame(t, t');
    forall id
      ensures CircuitAt(t', id) && ArbitratedAt(t', id) && (calm ==> TraceAt(t', id))
    {
      assert CircuitAt(t, id) && (calm ==> TraceAt(t, id));
    }
    forall k
      ensures IndexAt(t', k)
    {
      assert IndexAt(t, k);
    }
  }

  lemma ActiveFacts(t: Transport, calm: bool, id: ConnId)
    requires Inv(t, calm)
    ensures DirectOk(t)
    ensures forall c | c in t.activeInner :: !c.isCircuit
    ensures id in t.circuits ==> t.circuits[id].key.conn in t.activeInner
    ensures id in t.circuits && !t.circuits[id].ready ==> t.circuits[id].remote !in t.directByPeer
  {
    assert CircuitAt(t, id) && ArbitratedAt(t, id);
  }

  lemma NoteKeys(t: Transport, id: ConnId, p: Peer)
    ensures NoteDirect(t, id, p).directByPeer.Keys <= t.directByPeer.Keys + {p}
  {
  }

  /** A recorded direct connection ends every negotiating circuit to that peer. */
  lemma RecordDirectInv(t: Transport, id: ConnId, p: Peer, losers: seq<ConnId>, calm: bool)
    requires Inv(t, calm) && forall x | x in t.circuits && Loses(t, p, x) :: x in losers
    ensures Inv(RecordDirect(t, id, p, losers), calm)
  {
    hide Inv, FailAll, NoteDirect, DirectOk;
    var f := FailAll(t, losers, true);
    FailAllInv(t, losers, true, calm);
    FailAllFrame(t, NoteFrame(t, id, p), losers, true);
    var r := RecordDirect(t, id, p, losers);
    ActiveFacts(t, calm, id);
    NoteDirectOk(t, id, p);
    DirectFrame(NoteDirect(t, id, p), r);
    NoteKeys(t, id, p);
    forall x | x in f.circuits
      ensures f.circuits[x].key.conn in r.activeInner
      ensures !f.circuits[x].ready ==> f.circuits[x].remote !in r.directByPeer
    {
      ActiveFacts(t, calm, x);
      assert f.circuits[x] == t.circuits[x] && x !in losers by {
        Survivor(t.circuits, losers, x);
      }
    }
    RewireInv(f, r, calm);
  }

  lemma Survivor(m: map<ConnId, Circuit>, ids: seq<ConnId>, x: ConnId)
    requires x in m - set i | 0 <= i < |ids| :: ids[i]
    ensures x in m && x !in ids && (m - set i | 0 <= i < |ids| :: ids[i])[x] == m[x]
  {
  }

  function NoteFrame(t: Transport, id: ConnId, p: Peer): (t': Transport)
    ensures t' == NoteDirect(t, id, p)
    ensures t' == t.(activeInner := t'.activeInner, directByPeer := t'.directByPeer, directByConn := t'.directByConn)
    ensures t'.activeInner == t.activeInner
  {
    NoteDirect(t, id, p)
  }

  lemma RemoveKeys(t: Transport, id: ConnId)
    ensures RemoveDirect(t, id).directByPeer.Keys <= t.directByPeer.Keys
    ensures RemoveDirect(t, id) == t.(directByPeer := RemoveDirect(t, id).directByPeer, directByConn := RemoveDirect(t, id).directByConn)
  {
  }

  /** Forgetting a connection that no circuit rides. */
  lemma DetachInv(t: Transport, id: ConnId, calm: bool)
    requires Inv(t, calm) && forall x | x in t.circuits :: t.circuits[x].key.conn != id
    ensures Inv(RemoveDirect(t.(activeInner := t.activeInner - {id}), id), calm)
  {
    hide Inv, DirectOk, RemoveDirect;
    var a := t.(activeInner := t.activeInner - {id});
    var r := RemoveDirect(a, id);
    ActiveFacts(t, calm, id);
    DirectFrame(t, a);
    RemoveDirectOk(a, id);
    RemoveKeys(a, id);
    forall x | x in t.circuits
      ensures t.circuits[x].key.conn in r.activeInner
      ensures !t.circuits[x].ready ==> t.circuits[x].remote !in r.directByPeer
    {
      ActiveFacts(t, calm, x);
    }
    RewireInv(t, r, calm);
  }

  predicate Rides(t: Transport, id: ConnId, x: ConnId) {
    x in t.circuits && t.circuits[x].key.conn == id
  }

  lemma InnerClosedInv(t: Transport, id: ConnId, riding: seq<ConnId>, calm: bool)
    requires Inv(t, calm) && !id.isCircuit && forall x | x in t.circuits && Rides(t, id, x) :: x in riding
    ensures Inv(InnerClosed(t, id, riding), calm)
  {
    hide Inv, FailAll, RemoveDirect, ForgetConn;
    var f := FailAll(t, riding, false);
    FailAllInv(t, riding, false, calm);
    forall x | x in f.circuits
      ensures f.circuits[x].key.conn != id
    {
      Survivor(t.circuits, riding, x);
    }
    DetachInv(f, id, calm);
    var t1 := RemoveDirect(t.(activeInner := t.activeInner - {id}), id);
    RemoveKeys(t.(activeInner := t.activeInner - {id}), id);
    FailAllFrame(t, t1, riding, false);
    RemoveSame(t, f, id);
    var d := FailAll(t1, riding, false);
    InvRetired(d, calm);
    ReleaseOk(d, Key(id, 0), id);
    assert Feed(ReleaseConn(d, id)) == Feed(d) + [];
    QuietInv(d, ReleaseConn(d, id), [], calm);
    PushInv(ReleaseConn(d, id), Closed(id), calm);
  }

  /** Removing a direct connection reads only the direct maps. */
  lemma RemoveSame(t: Transport, f: Transport, id: ConnId)
    requires f.directByPeer == t.directByPeer && f.directByConn == t.directByConn && f.activeInner == t.activeInner
    ensures var t1 := RemoveDirect(t.(activeInner := t.activeInner - {id}), id);
            RemoveDirect(f.(activeInner := f.activeInner - {id}), id)
            == f.(activeInner := t1.activeInner, directByPeer := t1.directByPeer, directByConn := t1.directByConn)
  {
    hide DropDirect;
  }

  lemma ActivateInv(t: Transport, id: ConnId, calm: bool)
    requires Inv(t, calm) && !id.isCircuit
    ensures Inv(t.(activeInner := t.activeInner + {id}), calm)
  {
    hide Inv, DirectOk;
    var r := t.(activeInner := t.activeInner + {id});
    ActiveFacts(t, calm, id);
    DirectFrame(t, r);
    forall x | x in t.circuits
      ensures t.circuits[x].key.conn in r.activeInner
      ensures !t.circuits[x].ready ==> t.circuits[x].remote !in r.directByPeer
    {
      ActiveFacts(t, calm, x);
    }
    RewireInv(t, r, calm);
  }

  // ---- adoption ----

  lemma EnterStruct(t: Transport, a: Adoption, id: ConnId)
    requires Struct(t) && id == ConnId(true, t.nextId) && a.key !in t.bridgeIndex && a.key.conn in t.activeInner
    ensures Struct(Enter(t, a, id))
  {
    hide DirectOk, RetiredOk;
    var t' := Enter(t, a, id);
    DirectFrame(t, t');
    RetiredFrame(t, t');
    assert id !in t.roles;
    forall x
      ensures CircuitAt(t', x)
    {
      assert CircuitAt(t, x);
    }
    forall k
      ensures IndexAt(t', k)
    {
      assert IndexAt(t, k) && CircuitAt(t, id);
    }
  }

  lemma EnterInv(t: Transport, a: Adoption, id: ConnId, calm: bool)
    requires Inv(t, calm) && id == ConnId(true, t.nextId) && a.key !in t.bridgeIndex && a.key.conn in t.activeInner
    requires !IsDirect(t, a.remote)
    ensures Inv(Enter(t, a, id), calm)
  {
    hide TraceOf, RetiredOk, Feed;
    var t' := Enter(t, a, id);
    EnterStruct(t, a, id);
    assert id !in t.roles && CircuitAt(t, id);
    var events := if a.role.Responder? then [IncomingConnection(id)] else [];
    EnterFeed(t, a, id);
    forall x
      ensures ArbitratedAt(t', x) && (calm ==> TraceAt(t', x))
    {
      assert ArbitratedAt(t, x);
      if calm {
        assert TraceAt(t, x);
        if x != id {
          TraceAppend(Feed(t), events, x);
        } else if a.role.Responder? {
          TraceSnoc(Feed(t), IncomingConnection(id), id);
        } else {
          assert Feed(t) + [] == Feed(t);
        }
      }
    }
  }

  lemma EnterFeed(t: Transport, a: Adoption, id: ConnId)
    ensures Feed(Enter(t, a, id)) == Feed(t) + if a.role.Responder? then [IncomingConnection(id)] else []
  {
  }

  /** The sessions of an adoption behave as sessions do. */
  predicate LegalAdopt(t: Transport, a: Adoption, start: SessionStep, feed: SessionStep) {
    var id := ConnId(true, t.nextId);
    var t1 := Enter(t, a, id);
    var t2 := Drive(t1, id, start, true);
    && LegalStep(t1, id, start.outputs)
    && (a.key in t2.bridgeIndex ==> LegalStep(t2, t2.bridgeIndex[a.key], feed.outputs))
  }

  lemma AdoptInv(t: Transport, a: Adoption, entropy: bool, start: SessionStep, feed: SessionStep, calm: bool)
    requires Inv(t, calm) && LegalAdopt(t, a, start, feed)
    ensures Inv(Adopt(t, a, entropy, start, feed).0, calm)
    ensures Adopt(t, a, entropy, start, feed).1 != Err(IndexPanic)
  {
    hide Inv, Drive, InjectData, Enter, IsDirect, Pump, LegalStep;
    IndexFacts(t, a.key, calm);
    if a.key !in t.bridgeIndex && a.key.conn in t.activeInner && !IsDirect(t, a.remote) {
      var id := ConnId(true, t.nextId);
      var t1 := Enter(t, a, id);
      EnterInv(t, a, id, calm);
      Entered(t, a, id);
      DriveInv(t1, id, start, true, calm);
      InjectDataInv(Drive(t1, id, start, true), a.key, feed, calm);
    }
  }

  lemma Entered(t: Transport, a: Adoption, id: ConnId)
    ensures id in Enter(t, a, id).circuits
  {
  }

  lemma IndexFacts(t: Transport, k: Key, calm: bool)
    requires Inv(t, calm)
    ensures k in t.bridgeIndex ==> t.bridgeIndex[k] in t.circuits && t.circuits[t.bridgeIndex[k]].key == k
  {
    assert IndexAt(t, k);
  }

  // ---- events of the wrapped transport ----

  predicate Collides(e: Event) {
    EventId(e).Some? && EventId(e).value.isCircuit
  }

  /** `visit` covers the circuits the event ends. */
  ghost predicate LegalVisit(t: Transport, e: Event, visit: seq<ConnId>) {
    !Collides(e) ==>
    match e
    case Connected(_, peer) => peer.Some? ==> forall x | x in t.circuits && Loses(t, peer.value, x) :: x in visit
    case Verified(_, peer) => peer.Some? ==> forall x | x in t.circuits && Loses(t, peer.value, x) :: x in visit
    case Closed(id) => forall x | x in t.circuits && Rides(t, id, x) :: x in visit
    case _ => true
  }

  predicate LegalData(t: Transport, e: Event, step: SessionStep) {
    e.StreamData? && Key(e.id, e.stream) in t.bridgeIndex ==>
      LegalStep(t, t.bridgeIndex[Key(e.id, e.stream)], step.outputs)
  }

  /** A colliding event is refused; it touches no circuit. */
  lemma CollisionInv(t: Transport, e: Event, visit: seq<ConnId>, step: SessionStep)
    requires Inv(t, false) && Collides(e)
    ensures Inv(HandleInner(t, e, visit, step), false)
  {
    hide Inv, RemoveDirect;
    forall x | x in t.circuits
      ensures t.circuits[x].key.conn != e.id
    {
      ActiveFacts(t, false, x);
    }
    DetachInv(t, e.id, false);
    PushInv(RemoveDirect(t.(activeInner := t.activeInner - {e.id}), e.id), Error(e.id), false);
  }

  lemma ConnectedInv(t: Transport, e: Event, visit: seq<ConnId>, step: SessionStep, calm: bool)
    requires Inv(t, calm) && !Collides(e) && LegalVisit(t, e, visit) && (e.Connected? || e.Verified?)
    ensures Inv(HandleInner(t, e, visit, step), calm)
  {
    hide Inv, RecordDirect, Push;
    var t1 := if e.Connected? then t.(activeInner := t.activeInner + {e.id}) else t;
    if e.Connected? {
      ActivateInv(t, e.id, calm);
    }
    if e.peer.Some? {
      LosesSame(t, t1, e.peer.value);
      RecordDirectInv(t1, e.id, e.peer.value, visit, calm);
      PushInv(RecordDirect(t1, e.id, e.peer.value, visit), e, calm);
    } else {
      PushInv(t1, e, calm);
    }
  }

  lemma LosesSame(t: Transport, t': Transport, p: Peer)
    requires t'.circuits == t.circuits
    ensures forall x :: Loses(t', p, x) <==> Loses(t, p, x)
  {
  }

  lemma HandleInnerInv(t: Transport, e: Event, visit: seq<ConnId>, step: SessionStep, calm: bool)
    requires Inv(t, calm) && LegalVisit(t, e, visit) && LegalData(t, e, step) && (calm ==> !Collides(e))
    ensures Inv(HandleInner(t, e, visit, step), calm)
  {
    hide Inv, InjectData, InjectFin, InjectClosed, InnerClosed, RecordDirect, Push, LegalStep;
    if Collides(e) {
      CollisionInv(t, e, visit, step);
    } else {
      PushInv(t, e, calm);
      match e
      case IncomingConnection(id) => ActivateInv(t, id, calm); PushInv(t.(activeInner := t.activeInner + {id}), e, calm);
      case Connected(_, _) => ConnectedInv(t, e, visit, step, calm);
      case Verified(_, _) => ConnectedInv(t, e, visit, step, calm);
      case StreamData(id, s) =>
        if Key(id, s) in t.bridgeIndex {
          InjectDataInv(t, Key(id, s), step, calm);
        }
      case RemoteWriteClosed(id, s) => InjectFinInv(t, Key(id, s), calm);
      case StreamClosed(id, s) => InjectClosedInv(t, Key(id, s), calm);
      case Closed(id) => InnerClosedInv(t, id, visit, calm);
      case _ =>
    }
  }

  // ---- runs ----

  datatype Op =
    | AdoptOp(adoption: Adoption, entropy: bool, start: SessionStep, feed: SessionStep)
    | DataOp(key: Key, step: SessionStep)
    | FinOp(key: Key)
    | ClosedOp(key: Key)
    | InnerOp(event: Event, visit: seq<ConnId>, step: SessionStep)
    | StreamOp(id: ConnId, step: SessionStep, newStream: Option<nat>)
    | CloseOp(id: ConnId, outputs: seq<Output>)
    | PollOp(id: ConnId, step: SessionStep)
    | DrainOp

  ghost predicate Legal(t: Transport, op: Op) {
    match op
    case AdoptOp(a, _, start, feed) => LegalAdopt(t, a, start, feed)
    case DataOp(key, step) => key in t.bridgeIndex ==> LegalStep(t, t.bridgeIndex[key], step.outputs)
    case InnerOp(e, visit, step) => LegalVisit(t, e, visit) && LegalData(t, e, step)
    case StreamOp(id, step, newStream) => LegalStep(t, id, step.outputs) && LegalOpen(t, id, step, newStream)
    case CloseOp(id, outputs) => LegalStep(t, id, outputs)
    case PollOp(id, step) => LegalStep(t, id, step.outputs)
    case _ => true
  }

  function Do(t: Transport, op: Op): Transport {
    match op
    case AdoptOp(a, entropy, start, feed) => Adopt(t, a, entropy, start, feed).0
    case DataOp(key, step) => InjectData(t, key, step)
    case FinOp(key) => InjectFin(t, key)
    case ClosedOp(key) => InjectClosed(t, key)
    case InnerOp(e, visit, step) => HandleInner(t, e, visit, step)
    case StreamOp(id, step, newStream) => Operate(t, id, step, newStream)
    case CloseOp(id, outputs) => CloseCircuit(t, id, outputs)
    case PollOp(id, step) => PollSession(t, id, step)
    case DrainOp => Drain(t)
  }

  predicate Calm(op: Op) {
    op.InnerOp? ==> !Collides(op.event)
  }

  lemma PollInv(t: Transport, id: ConnId, step: SessionStep, calm: bool)
    requires Inv(t, calm) && LegalStep(t, id, step.outputs)
    ensures Inv(PollSession(t, id, step), calm)
  {
    hide Inv, Drive, LegalFrom;
    if id in t.circuits && t.circuits[id].ready {
      DriveInv(t, id, step, !(step.fate.Fatal? && step.fate.graceful), calm);
    }
  }

  lemma DrainInv(t: Transport, calm: bool)
    requires Inv(t, calm)
    ensures Inv(Drain(t), calm)
  {
    hide Inv;
    InvRetired(t, calm);
    RetiredFrame(t, Drain(t));
    assert Feed(Drain(t)) == Feed(t) + [];
    QuietInv(t, Drain(t), [], calm);
  }

  lemma DoInv(t: Transport, op: Op, calm: bool)
    requires Inv(t, calm) && Legal(t, op) && (calm ==> Calm(op))
    ensures Inv(Do(t, op), calm)
  {
    hide Inv, Adopt, InjectData, InjectFin, InjectClosed, HandleInner, Operate, CloseCircuit, PollSession, LegalAdopt, LegalStep, Drain;
    match op
    case AdoptOp(a, entropy, start, feed) => AdoptInv(t, a, entropy, start, feed, calm);
    case DataOp(key, step) => InjectDataInv(t, key, step, calm);
    case FinOp(key) => InjectFinInv(t, key, calm);
    case ClosedOp(key) => InjectClosedInv(t, key, calm);
    case InnerOp(e, visit, step) => HandleInnerInv(t, e, visit, step, calm);
    case StreamOp(id, step, newStream) => OperateInv(t, id, step, newStream, calm);
    case CloseOp(id, outputs) => CloseInv(t, id, outputs, calm);
    case PollOp(id, step) => PollInv(t, id, step, calm);
    case DrainOp => DrainInv(t, calm);
  }

  function Run(ops: seq<Op>): Transport {
    if ops == [] then NEW else Do(Run(ops[..|ops| - 1]), ops[|ops| - 1])
  }

  ghost predicate LegalRun(ops: seq<Op>) {
    ops == [] || (LegalRun(ops[..|ops| - 1]) && Legal(Run(ops[..|ops| - 1]), ops[|ops| - 1]))
  }

  predicate CalmRun(ops: seq<Op>) {
    forall i | 0 <= i < |ops| :: Calm(ops[i])
  }

  lemma NewInv()
    ensures Inv(NEW, true)
  {
  }

  lemma CalmWeakens(t: Transport)
    requires Inv(t, true)
    ensures Inv(t, false)
  {
  }

  lemma {:induction false} RunInv(ops: seq<Op>)
    requires LegalRun(ops)
    ensures Inv(Run(ops), false)
    ensures CalmRun(ops) ==> Inv(Run(ops), true)
  {
    hide Inv, Do, Legal, Calm;
    if ops == [] {
      NewInv();
      CalmWeakens(NEW);
    } else {
      var init, op := ops[..|ops| - 1], ops[|ops| - 1];
      RunInv(init);
      DoInv(Run(init), op, false);
      if CalmRun(ops) {
        DoInv(Run(init), op, true);
      }
    }
  }

  /** The direct maps are exact inverses, and no negotiating circuit leads to a direct peer. */
  lemma DirectBeatsCircuits(ops: seq<Op>)
    requires LegalRun(ops)
    ensures var t := Run(ops);
            && (forall c, p :: ConnSays(t, c, p) <==> PeerSays(t, c, p))
            && (forall p | p in t.directByPeer :: t.directByPeer[p] != {})
            && (forall id | id in t.circuits && !t.circuits[id].ready :: !IsDirect(t, t.circuits[id].remote))
  {
    RunInv(ops);
    var t := Run(ops);
    hide Run, TraceOf;
    forall id | id in t.circuits && !t.circuits[id].ready
      ensures !IsDirect(t, t.circuits[id].remote)
    {
      assert ArbitratedAt(t, id);
    }
  }

  /** So the arbitration inside `pump` never fires: a legal session's pump stops only on a failed write. */
  lemma {:induction false} PumpStopsOnlyOnWrites(t: Transport, id: ConnId, ready: bool, remote: Peer, outputs: seq<Output>)
    requires LegalFrom(ready, remote, outputs) && (!ready ==> !IsDirect(t, remote))
    ensures Pump(t, id, outputs).ok <==> forall i | 0 <= i < |outputs| :: outputs[i].Write? ==> outputs[i].ok
    decreases |outputs|
  {
    hide IsDirect;
    if outputs != [] {
      assert outputs == [outputs[0]] + outputs[1..];
      PumpStopsOnlyOnWrites(t, id, ready || outputs[0].Established?, remote, outputs[1..]);
    }
  }

  /** The bridge index is the exact inverse of the live circuits, each riding an active connection. */
  lemma BridgesAreExact(ops: seq<Op>)
    requires LegalRun(ops)
    ensures var t := Run(ops);
            && (forall id | id in t.circuits ::
                  && t.circuits[id].key in t.bridgeIndex && t.bridgeIndex[t.circuits[id].key] == id
                  && t.circuits[id].key.conn in t.activeInner)
            && (forall k | k in t.bridgeIndex :: t.bridgeIndex[k] in t.circuits && t.circuits[t.bridgeIndex[k]].key == k)
            && |t.retired| <= MAX_RETIRED
  {
    RunInv(ops);
    var t := Run(ops);
    hide Run, TraceOf, DirectOk;
    forall id | id in t.circuits
      ensures t.circuits[id].key in t.bridgeIndex && t.bridgeIndex[t.circuits[id].key] == id
      ensures t.circuits[id].key.conn in t.activeInner
    {
      assert CircuitAt(t, id);
    }
    forall k | k in t.bridgeIndex
      ensures t.bridgeIndex[k] in t.circuits && t.circuits[t.bridgeIndex[k]].key == k
    {
      assert IndexAt(t, k);
    }
    ListedSize(t.retired, t.retiredOrder);
  }

  lemma {:induction false} ListedSize(s: set<Key>, order: seq<Key>)
    requires forall k | k in s :: k in order
    ensures |s| <= |order|
  {
    if order != [] {
      var init, last := order[..|order| - 1], order[|order| - 1];
      assert order == init + [last];
      ListedSize(s - {last}, init);
      assert s <= (s - {last}) + {last};
    }
  }

  /**
   With a wrapped transport that keeps out of the circuit namespace, the public events of
   each circuit id are: the incoming announcement exactly for responders, at most one
   Connected, stream events only while connected, at most one Error, exactly one Closed
   once the circuit is gone, and nothing after it.
   */
  lemma EventsFollowProtocol(ops: seq<Op>, id: ConnId)
    requires LegalRun(ops) && CalmRun(ops) && id.isCircuit
    ensures var t := Run(ops); var s := TraceOf(Feed(t), id);
            if id in t.circuits then s == Trace(if t.circuits[id].ready then Live else Negotiating, t.circuits[id].role.Responder?)
            else if id in t.roles then s == Trace(Done, t.roles[id].Responder?)
            else s == Trace(Negotiating, false)
  {
    RunInv(ops);
    hide Run, TraceOf, Feed;
    assert TraceAt(Run(ops), id);
  }
}
