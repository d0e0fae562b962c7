/**
 Arbitration as the client sees it: no operation of the circuit transport queues a circuit's
 `Connected` for a peer with a recorded direct connection (crates/circuit/src/lib.rs).
 */
module CircuitArbitration {
  import opened Bytes
  import opened Circuit
  import opened R = CircuitRuns
  import S = CircuitSteps

  predicate CircuitConnected(e: Event) {
    e.Connected? && e.id.isCircuit
  }

  /** If the event announces a circuit, its peer is known and has no direct connection. */
  predicate Clear(t: Transport, e: Event) {
    CircuitConnected(e) ==> e.peer.Some? && !IsDirect(t, e.peer.value)
  }

  predicate SameDirect(t: Transport, t': Transport) {
    t'.directByPeer == t.directByPeer
  }

  /** The feed grew, by clear events only. */
  ghost predicate Grows(t: Transport, t': Transport) {
    Feed(t) <= Feed(t') && forall i | |Feed(t)| <= i < |Feed(t')| :: Clear(t, Feed(t')[i]) && Clear(t', Feed(t')[i])
  }

  /** The feed grew and announced no circuit. */
  ghost predicate Plain(t: Transport, t': Transport) {
    Feed(t) <= Feed(t') && forall i | |Feed(t)| <= i < |Feed(t')| :: !CircuitConnected(Feed(t')[i])
  }

  /** A step that leaves the direct connections alone. */
  ghost predicate Quiet(t: Transport, t': Transport) {
    SameDirect(t, t') && Grows(t, t')
  }

  lemma PlainGrows(t: Transport, t': Transport)
    requires Plain(t, t')
    ensures Grows(t, t')
  {
    hide Feed;
  }

  lemma PlainTransitive(t: Transport, t1: Transport, t2: Transport)
    requires Plain(t, t1) && Plain(t1, t2)
    ensures Plain(t, t2)
  {
    hide Feed, CircuitConnected;
    forall i | |Feed(t)| <= i < |Feed(t2)|
      ensures !CircuitConnected(Feed(t2)[i])
    {
      if i < |Feed(t1)| {
        assert Feed(t2)[i] == Feed(t1)[i];
      }
    }
  }

  lemma SameClear(t: Transport, t': Transport, e: Event)
    requires SameDirect(t, t')
    ensures Clear(t, e) == Clear(t', e)
  {
  }

  lemma QuietTransitive(t: Transport, t1: Transport, t2: Transport)
    requires Quiet(t, t1) && Quiet(t1, t2)
    ensures Quiet(t, t2)
  {
    hide Feed, Clear;
    forall i | |Feed(t)| <= i < |Feed(t2)|
      ensures Clear(t, Feed(t2)[i]) && Clear(t2, Feed(t2)[i])
    {
      var e := Feed(t2)[i];
      SameClear(t, t1, e);
      SameClear(t1, t2, e);
      if i < |Feed(t1)| {
        assert e == Feed(t1)[i];
      }
    }
  }

  /** The events a step adds are enough to judge it. */
  lemma Added(t: Transport, t': Transport, events: seq<Event>)
    requires Feed(t') == Feed(t) + events
    ensures (forall e | e in events :: !CircuitConnected(e)) ==> Plain(t, t')
    ensures SameDirect(t, t') && (forall e | e in events :: Clear(t, e)) ==> Quiet(t, t')
  {
    hide Feed, CircuitConnected, Clear;
    forall i | |Feed(t)| <= i < |Feed(t')|
      ensures Feed(t')[i] in events
    {
      assert Feed(t')[i] == events[i - |Feed(t)|];
    }
    if SameDirect(t, t') && forall e | e in events :: Clear(t, e) {
      forall i | |Feed(t)| <= i < |Feed(t')|
        ensures Clear(t', Feed(t')[i])
      {
        SameClear(t, t', Feed(t')[i]);
      }
    }
  }

  // ---- pumping and tearing down ----

  /** The arbitration inside `pump`: a session establishes its circuit only for a peer without direct connection. */
  lemma {:induction false} PumpClear(t: Transport, id: ConnId, outputs: seq<Output>)
    ensures forall e | e in Pump(t, id, outputs).events :: Clear(t, e)
    decreases |outputs|
  {
    hide IsDirect;
    if outputs != [] {
      PumpClear(t, id, outputs[1..]);
    }
  }

  lemma AfterPumpQuiet(t: Transport, id: ConnId, outputs: seq<Output>)
    requires id in t.circuits
    ensures Quiet(t, AfterPump(t, id, outputs))
  {
    hide Quiet, Clear, Feed;
    PumpClear(t, id, outputs);
    S.AfterPumpFeed(t, id, outputs);
    Added(t, AfterPump(t, id, outputs), Pump(t, id, outputs).events);
  }

  lemma PushAdds(t: Transport, events: seq<Event>)
    ensures Feed(Push(t, events)) == Feed(t) + events
  {
  }

  lemma FailAdds(t: Transport, id: ConnId, emit: bool)
    ensures SameDirect(t, FailCircuit(t, id, emit)) && Plain(t, FailCircuit(t, id, emit))
  {
    hide Plain, Retire;
    var events := if id in t.circuits then (if emit then [Error(id)] else []) + [Closed(id)] else [];
    assert Feed(FailCircuit(t, id, emit)) == Feed(t) + events;
    Added(t, FailCircuit(t, id, emit), events);
  }

  lemma FailQuiet(t: Transport, id: ConnId, emit: bool)
    ensures Quiet(t, FailCircuit(t, id, emit))
  {
    hide FailCircuit, Plain, Grows;
    FailAdds(t, id, emit);
    PlainGrows(t, FailCircuit(t, id, emit));
  }

  lemma {:induction false} FailAllPlain(t: Transport, ids: seq<ConnId>, always: bool)
    ensures SameDirect(t, FailAll(t, ids, always)) && Plain(t, FailAll(t, ids, always))
  {
    hide FailCircuit, Plain;
    if ids == [] {
      SelfPlain(t);
    } else {
      var t1, id := FailAll(t, ids[..|ids| - 1], always), ids[|ids| - 1];
      FailAllPlain(t, ids[..|ids| - 1], always);
      var emit := always || (id in t1.circuits && !t1.circuits[id].ready);
      FailAdds(t1, id, emit);
      PlainTransitive(t, t1, FailCircuit(t1, id, emit));
    }
  }

  lemma SelfPlain(t: Transport)
    ensures Plain(t, t) && Quiet(t, t)
  {
  }

  lemma SameFeed(t: Transport, t': Transport)
    requires Feed(t') == Feed(t)
    ensures Plain(t, t')
    ensures SameDirect(t, t') ==> Quiet(t, t')
  {
    hide Feed;
  }

  // ---- session calls ----

  lemma DriveQuiet(t: Transport, id: ConnId, step: SessionStep, emit: bool)
    requires id in t.circuits
    ensures Quiet(t, Drive(t, id, step, emit))
  {
    hide Quiet, FailCircuit, AfterPump, Pump;
    FailQuiet(t, id, emit);
    var t1 := AfterPump(t, id, step.outputs);
    AfterPumpQuiet(t, id, step.outputs);
    FailQuiet(t1, id, true);
    QuietTransitive(t, t1, FailCircuit(t1, id, true));
  }

  lemma InjectDataQuiet(t: Transport, key: Key, step: SessionStep)
    ensures Quiet(t, InjectData(t, key, step))
  {
    hide Quiet, FailCircuit, AfterPump, Pump;
    SelfPlain(t);
    if key in t.bridgeIndex && t.bridgeIndex[key] in t.circuits {
      var id := t.bridgeIndex[key];
      var t1 := AfterPump(t, id, step.outputs);
      AfterPumpQuiet(t, id, step.outputs);
      forall emit
        ensures Quiet(t, FailCircuit(t1, id, emit))
      {
        FailQuiet(t1, id, emit);
        QuietTransitive(t, t1, FailCircuit(t1, id, emit));
      }
    }
  }

  lemma InjectFinQuiet(t: Transport, key: Key)
    ensures Quiet(t, InjectFin(t, key))
  {
    hide Quiet, FailCircuit;
    SelfPlain(t);
    if key in t.bridgeIndex && t.bridgeIndex[key] in t.circuits {
      FailQuiet(t, t.bridgeIndex[key], !t.circuits[t.bridgeIndex[key]].ready);
    }
  }

  lemma InjectClosedQuiet(t: Transport, key: Key)
    ensures Quiet(t, InjectClosed(t, key))
  {
    hide Quiet, InjectFin;
    var t1 := ReleaseBridge(t, key);
    SameFeed(t, t1);
    InjectFinQuiet(t1, key);
    QuietTransitive(t, t1, InjectFin(t1, key));
  }

  lemma EnterQuiet(t: Transport, a: Adoption, id: ConnId)
    ensures Quiet(t, Enter(t, a, id))
  {
    hide Quiet;
    var events := if a.role.Responder? then [IncomingConnection(id)] else [];
    assert Feed(Enter(t, a, id)) == Feed(t) + events;
    Added(t, Enter(t, a, id), events);
  }

  lemma AdoptQuiet(t: Transport, a: Adoption, entropy: bool, start: SessionStep, feed: SessionStep)
    ensures Quiet(t, Adopt(t, a, entropy, start, feed).0)
  {
    hide Quiet, Drive, InjectData, Pump, IsDirect;
    SelfPlain(t);
    var id := ConnId(true, t.nextId);
    var t1 := Enter(t, a, id);
    EnterQuiet(t, a, id);
    EnterHolds(t, a, id);
    hide Enter;
    DriveQuiet(t1, id, start, true);
    var t2 := Drive(t1, id, start, true);
    QuietTransitive(t, t1, t2);
    InjectDataQuiet(t2, a.key, feed);
    QuietTransitive(t, t2, InjectData(t2, a.key, feed));
  }

  lemma EnterHolds(t: Transport, a: Adoption, id: ConnId)
    ensures id in Enter(t, a, id).circuits
  {
  }

  lemma OperateQuiet(t: Transport, id: ConnId, step: SessionStep, newStream: Option<nat>)
    ensures Quiet(t, Operate(t, id, step, newStream))
  {
    hide Quiet, FailCircuit, AfterPump, Pump, Push, Feed;
    SelfPlain(t);
    if id in t.circuits {
      var t1 := AfterPump(t, id, step.outputs);
      AfterPumpQuiet(t, id, step.outputs);
      FailQuiet(t1, id, false);
      QuietTransitive(t, t1, FailCircuit(t1, id, false));
      if newStream.Some? {
        PushQuiet(t1, [StreamOpened(id, newStream.value)]);
        QuietTransitive(t, t1, Push(t1, [StreamOpened(id, newStream.value)]));
      }
    }
  }

  lemma PushQuiet(t: Transport, events: seq<Event>)
    requires forall e | e in events :: Clear(t, e)
    ensures Quiet(t, Push(t, events))
  {
    hide Quiet, Clear;
    PushAdds(t, events);
    Added(t, Push(t, events), events);
  }

  lemma CloseQuiet(t: Transport, id: ConnId, outputs: seq<Output>)
    ensures Quiet(t, CloseCircuit(t, id, outputs))
  {
    hide Quiet, FailCircuit, Pump, Push, Clear;
    SelfPlain(t);
    var events := Pump(t, id, outputs).events;
    PumpClear(t, id, outputs);
    PushQuiet(t, events);
    FailQuiet(Push(t, events), id, false);
    QuietTransitive(t, Push(t, events), FailCircuit(Push(t, events), id, false));
  }

  lemma PollQuiet(t: Transport, id: ConnId, step: SessionStep)
    ensures Quiet(t, PollSession(t, id, step))
  {
    hide Quiet, Drive;
    SelfPlain(t);
    if id in t.circuits && t.circuits[id].ready {
      DriveQuiet(t, id, step, !(step.fate.Fatal? && step.fate.graceful));
    }
  }

  lemma DrainQuiet(t: Transport)
    ensures Quiet(t, Drain(t))
  {
    hide Quiet;
    assert Feed(Drain(t)) == Feed(t);
    SameFeed(t, Drain(t));
  }

  // ---- events of the wrapped transport ----

  lemma PushPlain(t: Transport, t1: Transport, e: Event)
    requires Plain(t, t1) && !CircuitConnected(e)
    ensures Plain(t, Push(t1, [e]))
  {
    hide Plain, Feed, CircuitConnected, Push;
    PushAdds(t1, [e]);
    Added(t1, Push(t1, [e]), [e]);
    PlainTransitive(t, t1, Push(t1, [e]));
  }

  lemma RecordPlain(t: Transport, t1: Transport, id: ConnId, p: Peer, losers: seq<ConnId>)
    requires Feed(t1) == Feed(t)
    ensures Plain(t, RecordDirect(t1, id, p, losers))
  {
    hide Plain, FailAll;
    var t2 := NoteDirect(t1, id, p);
    assert Feed(t2) == Feed(t);
    SameFeed(t, t2);
    FailAllPlain(t2, losers, true);
    PlainTransitive(t, t2, FailAll(t2, losers, true));
  }

  lemma InnerClosedPlain(t: Transport, id: ConnId, riding: seq<ConnId>)
    requires !id.isCircuit
    ensures Plain(t, InnerClosed(t, id, riding))
  {
    hide Plain, FailAll, ForgetConn;
    var t1 := RemoveDirect(t.(activeInner := t.activeInner - {id}), id);
    SameFeed(t, t1);
    FailAllPlain(t1, riding, false);
    var t2 := FailAll(t1, riding, false);
    PlainTransitive(t, t1, t2);
    var t3 := ReleaseConn(t2, id);
    SameFeed(t2, t3);
    PlainTransitive(t, t2, t3);
    PushPlain(t, t3, Closed(id));
  }

  lemma HandleInnerGrows(t: Transport, e: Event, visit: seq<ConnId>, step: SessionStep)
    ensures Grows(t, HandleInner(t, e, visit, step))
  {
    hide Grows, Plain, RecordDirect, InjectData, InjectFin, InjectClosed, InnerClosed, Push, Feed;
    SelfPlain(t);
    forall t' | Plain(t, t')
      ensures Grows(t, t')
    {
      PlainGrows(t, t');
    }
    if EventId(e).Some? && EventId(e).value.isCircuit {
      CollisionPlain(t, e);
    } else {
      PushPlain(t, t, e);
      match e {
        case IncomingConnection(id) =>
          ActivePlain(t, id);
          PushPlain(t, t.(activeInner := t.activeInner + {id}), e);
        case Connected(id, peer) =>
          ActivePlain(t, id);
          var t1 := t.(activeInner := t.activeInner + {id});
          PushPlain(t, t1, e);
          if peer.Some? {
            RecordPlain(t, t1, id, peer.value, visit);
            PushPlain(t, RecordDirect(t1, id, peer.value, visit), e);
          }
        case Verified(id, peer) =>
          if peer.Some? {
            RecordPlain(t, t, id, peer.value, visit);
            PushPlain(t, RecordDirect(t, id, peer.value, visit), e);
          }
        case StreamData(id, s) => InjectDataQuiet(t, Key(id, s), step);
        case RemoteWriteClosed(id, s) => InjectFinQuiet(t, Key(id, s));
        case StreamClosed(id, s) => InjectClosedQuiet(t, Key(id, s));
        case Closed(id) => InnerClosedPlain(t, id, visit);
        case _ =>
      }
    }
  }

  lemma ActivePlain(t: Transport, id: ConnId)
    ensures Feed(t.(activeInner := t.activeInner + {id})) == Feed(t)
    ensures Plain(t, t.(activeInner := t.activeInner + {id}))
  {
  }

  lemma CollisionPlain(t: Transport, e: Event)
    requires EventId(e).Some?
    ensures Plain(t, Push(RemoveDirect(t.(activeInner := t.activeInner - {e.id}), e.id), [Error(e.id)]))
  {
    hide Plain;
    var t1 := RemoveDirect(t.(activeInner := t.activeInner - {e.id}), e.id);
    SameFeed(t, t1);
    PushPlain(t, t1, Error(e.id));
  }

  // ---- runs ----

  /** Every operation, legal or not: the circuits it announces lead to peers without a direct connection. */
  lemma DoGrows(t: Transport, op: S.Op)
    ensures Grows(t, S.Do(t, op))
  {
    hide Grows, Adopt, InjectData, InjectFin, InjectClosed, HandleInner, Operate, CloseCircuit, PollSession, Drain;
    match op
    case AdoptOp(a, entropy, start, feed) => AdoptQuiet(t, a, entropy, start, feed);
    case DataOp(key, step) => InjectDataQuiet(t, key, step);
    case FinOp(key) => InjectFinQuiet(t, key);
    case ClosedOp(key) => InjectClosedQuiet(t, key);
    case InnerOp(e, visit, step) => HandleInnerGrows(t, e, visit, step);
    case StreamOp(id, step, newStream) => OperateQuiet(t, id, step, newStream);
    case CloseOp(id, outputs) => CloseQuiet(t, id, outputs);
    case PollOp(id, step) => PollQuiet(t, id, step);
    case DrainOp => DrainQuiet(t);
  }

  /** Step `k` of the run queued entry `i` of the feed, with `p` not directly connected before or after. */
  predicate QueuedBy(ops: seq<S.Op>, i: nat, k: nat, p: Peer) {
    && k < |ops| && |Feed(S.Run(ops[..k]))| <= i < |Feed(S.Run(ops[..k + 1]))|
    && !IsDirect(S.Run(ops[..k]), p) && !IsDirect(S.Run(ops[..k + 1]), p)
  }

  lemma QueuedEarlier(ops: seq<S.Op>, n: nat, i: nat, k: nat, p: Peer)
    requires n <= |ops| && QueuedBy(ops[..n], i, k, p)
    ensures QueuedBy(ops, i, k, p)
  {
    hide Feed, IsDirect, S.Run;
    assert ops[..n][..k] == ops[..k] && ops[..n][..k + 1] == ops[..k + 1];
  }

  /**
   Over every run, each circuit announced as connected was announced by a step before and
   after which its peer had no recorded direct connection.
   */
  lemma {:induction false} AnnouncedOnlyWithoutDirect(ops: seq<S.Op>, i: nat)
    requires i < |Feed(S.Run(ops))| && CircuitConnected(Feed(S.Run(ops))[i])
    ensures var e := Feed(S.Run(ops))[i];
            e.peer.Some? && exists k: nat :: QueuedBy(ops, i, k, e.peer.value)
  {
    hide Feed, S.Do, QueuedBy, IsDirect;
    if ops == [] {
      StartsEmpty();
    } else {
      var n := |ops| - 1;
      var t, t' := S.Run(ops[..n]), S.Run(ops);
      DoGrows(t, ops[n]);
      var e := Feed(t')[i];
      if i < |Feed(t)| {
        assert Feed(t)[i] == e;
        AnnouncedOnlyWithoutDirect(ops[..n], i);
        var k: nat :| QueuedBy(ops[..n], i, k, e.peer.value);
        QueuedEarlier(ops, n, i, k, e.peer.value);
      } else {
        assert Clear(t, e) && Clear(t', e);
        QueuedLast(ops, i, e.peer.value);
      }
    }
  }

  lemma QueuedLast(ops: seq<S.Op>, i: nat, p: Peer)
    requires ops != [] && |Feed(S.Run(ops[..|ops| - 1]))| <= i < |Feed(S.Run(ops))|
    requires !IsDirect(S.Run(ops[..|ops| - 1]), p) && !IsDirect(S.Run(ops), p)
    ensures QueuedBy(ops, i, |ops| - 1, p)
  {
    hide Feed, IsDirect, S.Run;
    assert ops[..|ops|] == ops;
  }

  lemma StartsEmpty()
    ensures Feed(S.Run([])) == []
  {
  }
}
