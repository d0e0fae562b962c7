/**
 Two DCUtR parties joined by FIFO byte channels (crates/dcutr/src/lib.rs; section
 "The Protocol" of the libp2p DCUtR specification).

 A step polls a party, delivers any prefix of the bytes in flight, reports a closed write
 side, or feeds SYNC once after the caller saw `DialNow`.  The invariant of every run
 says that no party errs, that each learns the other's addresses and only those, and that
 SYNC is seen only after CONNECT and after the initiator dialled.
 */
module DcutrExchange {
  import opened Bytes
  import opened Dcutr
  import Frame
  import HP = HolePunch
  import M = Multiaddr

  /** Both parties, every byte each has written, how much of it was delivered, and what the callers saw. */
  datatype Sys = Sys(
    i: Initiator,
    r: Responder,
    wireR: seq<Byte>,
    readR: nat,
    wireI: seq<Byte>,
    readI: nat,
    dialled: Option<DialNow>,
    syncFed: bool,
    seen: seq<ResponderEvent>,
    failed: bool)

  datatype Action =
    | PollInitiator
    | PollResponder
    | DeliverToResponder(n: nat)
    | DeliverToInitiator(n: nat, rttMs: nat)
    | FeedSync
    | CloseToResponder
    | CloseToInitiator

  predicate Fits(addrs: seq<M.Addr>) {
    && (forall a | a in addrs :: M.ValidAddr(a))
    && |ConnectPayload(addrs)| <= MAX_MESSAGE
  }

  function Init(addrsI: seq<M.Addr>, addrsR: seq<M.Addr>): Sys
    requires Fits(addrsI) && Fits(addrsR)
  {
    Sys(NewInitiator(addrsI), NewResponder(addrsR), [], 0, [], 0, None, false, [], false)
  }

  predicate Enabled(s: Sys, a: Action) {
    match a
    case DeliverToResponder(n) => s.readR + n <= |s.wireR|
    case DeliverToInitiator(n, _) => s.readI + n <= |s.wireI|
    case FeedSync => s.dialled.Some? && !s.syncFed
    case _ => true
  }

  function ToResponder(s: Sys, input: ResponderInput): Sys {
    var step := ResponderHandle(s.r, input);
    s.(r := step.state, failed := s.failed || step.error.Some?)
  }

  function ToInitiator(s: Sys, input: InitiatorInput): Sys {
    var step := InitiatorHandle(s.i, input);
    s.(i := step.state, failed := s.failed || step.error.Some?)
  }

  function Next(s: Sys, a: Action): Sys
    requires Enabled(s, a)
  {
    match a
    case PollInitiator =>
      var p := InitiatorPollOutput(s.i);
      (match p.output
       case None => s.(i := p.state)
       case Some(IOutbound(bytes)) => s.(i := p.state, wireR := s.wireR + bytes)
       case Some(IOutcome(o)) => s.(i := p.state, dialled := Some(o)))
    case PollResponder =>
      var p := ResponderPollOutput(s.r);
      (match p.output
       case None => s.(r := p.state)
       case Some(ROutbound(bytes)) => s.(r := p.state, wireI := s.wireI + bytes)
       case Some(REvent(e)) => s.(r := p.state, seen := s.seen + [e]))
    case DeliverToResponder(n) =>
      ToResponder(s.(readR := s.readR + n), RData(s.wireR[s.readR..s.readR + n]))
    case DeliverToInitiator(n, rtt) =>
      ToInitiator(s.(readI := s.readI + n), IData(s.wireI[s.readI..s.readI + n], rtt))
    case FeedSync => ToInitiator(s.(syncFed := true), ISendSync)
    case CloseToResponder => ToResponder(s, RRemoteWriteClosed)
    case CloseToInitiator => ToInitiator(s, IRemoteWriteClosed)
  }

  function Run(s: Sys, actions: seq<Action>): Option<Sys>
    decreases |actions|
  {
    if actions == [] then Some(s)
    else if !Enabled(s, actions[0]) then None
    else Run(Next(s, actions[0]), actions[1..])
  }

  // ---- the frames on the wire ----

  function ConnectFrame(addrs: seq<M.Addr>): seq<Byte>
    requires Fits(addrs)
  {
    Frame.Encode(ConnectPayload(addrs))
  }

  function SyncFrame(): seq<Byte> {
    Frame.Encode(SYNC_PAYLOAD)
  }

  lemma SyncFits()
    ensures |SYNC_PAYLOAD| <= MAX_MESSAGE
  {
  }

  /** Nothing but the whole frame completes it. */
  lemma PrefixIncomplete(payload: seq<Byte>, n: nat)
    requires |payload| <= MAX_MESSAGE && n < |Frame.Encode(payload)|
    ensures Frame.Decode(Frame.Encode(payload)[..n], MAX_MESSAGE) == Frame.Incomplete
  {
    var frame := Frame.Encode(payload);
    var prefix := frame[..n];
    if Frame.Decode(prefix, MAX_MESSAGE) != Frame.Incomplete {
      Frame.DecodeExtends(prefix, MAX_MESSAGE, frame[n..]);
      assert prefix + frame[n..] == frame == frame + [];
      Frame.DecodeEncode(payload, MAX_MESSAGE, []);
      Frame.DecodeExact(prefix, MAX_MESSAGE);
    }
  }

  lemma ConnectDecodes(addrs: seq<M.Addr>)
    requires Fits(addrs)
    ensures HP.Decode(ConnectPayload(addrs)) == Ok(HP.Message(HP.Connect, EncodeAddrs(addrs)))
    ensures DecodeAddrs(EncodeAddrs(addrs)) == addrs
  {
    var raw := EncodeAddrs(addrs);
    AddrFieldsFit(raw);
    HP.DecodeEncode(HP.Message(HP.Connect, raw));
    DecodeEncodeAddrs(addrs);
  }

  /** An address inside a message that fits is itself short. */
  lemma {:induction false} AddrFieldsFit(raw: seq<seq<Byte>>)
    requires |HP.EncodeAddrs(raw)| <= MAX_MESSAGE
    ensures HP.Encodable(raw)
    decreases |raw|
  {
    if raw != [] {
      AddrFieldsFit(raw[1..]);
    }
  }

  lemma SyncDecodes()
    ensures HP.Decode(SYNC_PAYLOAD) == Ok(HP.Message(HP.Sync, []))
  {
    HP.DecodeEncode(HP.Message(HP.Sync, []));
  }

  // ---- what each party does with a prefix of the other's stream ----

  lemma ResponderReadsSync(r: Responder, n: nat)
    requires r.phase == AwaitingSync && n <= |SyncFrame()| && r.recvBuf == SyncFrame()[..n]
    ensures TryDecode(r) ==
            Step(if n < |SyncFrame()| then r
                 else r.(recvBuf := [], phase := ResponderDone, events := r.events + [SyncReceived]), None)
  {
    SyncFits();
    if n < |SyncFrame()| {
      PrefixIncomplete(SYNC_PAYLOAD, n);
      BackstopUnreached(r.recvBuf);
    } else {
      assert r.recvBuf == SyncFrame() == SyncFrame() + [];
      Frame.DecodeEncode(SYNC_PAYLOAD, MAX_MESSAGE, []);
      SyncDecodes();
    }
  }

  /** The responder after it dispatched the initiator's CONNECT. */
  function Replied(r: Responder, addrsI: seq<M.Addr>, rest: seq<Byte>): Responder
    requires Fits(addrsI)
  {
    r.(recvBuf := rest, outbound := r.outbound + r.connectReply, connectReply := [], phase := AwaitingSync,
       events := r.events + [ConnectReceived(addrsI, EncodeAddrs(addrsI))])
  }

  lemma ResponderReadsConnect(r: Responder, addrsI: seq<M.Addr>, rest: seq<Byte>)
    requires Fits(addrsI) && r.phase == AwaitingConnect && r.recvBuf == ConnectFrame(addrsI) + rest
    ensures TryDecode(r) == TryDecode(Replied(r, addrsI, rest))
  {
    Frame.DecodeEncode(ConnectPayload(addrsI), MAX_MESSAGE, rest);
    ConnectDecodes(addrsI);
    hide HP.Decode, Frame.Decode, Frame.Encode, ConnectPayload;
    assert OnFrame(r, ConnectPayload(addrsI), |ConnectFrame(addrsI)|) == Step(Replied(r, addrsI, rest), None);
  }

  lemma ResponderWaits(r: Responder, addrsI: seq<M.Addr>, n: nat)
    requires Fits(addrsI) && r.phase == AwaitingConnect
    requires n < |ConnectFrame(addrsI)| && r.recvBuf == ConnectFrame(addrsI)[..n]
    ensures TryDecode(r) == Step(r, None)
  {
    PrefixIncomplete(ConnectPayload(addrsI), n);
    BackstopUnreached(r.recvBuf);
  }

  lemma InitiatorReads(i: Initiator, addrsR: seq<M.Addr>, n: nat, rttMs: nat)
    requires Fits(addrsR) && i.phase == AwaitingConnectReply
    requires n <= |ConnectFrame(addrsR)| && i.recvBuf == ConnectFrame(addrsR)[..n]
    ensures TryDecodeReply(i, rttMs) ==
            IStep(if n < |ConnectFrame(addrsR)| then i
                  else i.(recvBuf := [], phase := ReadyToSync, emittedOutcome := false,
                          outcome := Some(DialNow(addrsR, EncodeAddrs(addrsR), rttMs))), None)
  {
    var frame := ConnectFrame(addrsR);
    if n < |frame| {
      PrefixIncomplete(ConnectPayload(addrsR), n);
      BackstopUnreached(i.recvBuf);
    } else {
      assert i.recvBuf == frame == frame + [];
      Frame.DecodeEncode(ConnectPayload(addrsR), MAX_MESSAGE, []);
      ConnectDecodes(addrsR);
    }
  }

  // ---- the invariant ----

  /** The initiator: what it queued, what it wrote, what it read of the reply. */
  predicate InitiatorInv(s: Sys, addrsI: seq<M.Addr>, addrsR: seq<M.Addr>)
    requires Fits(addrsI) && Fits(addrsR)
  {
    var connect, reply := ConnectFrame(addrsI), ConnectFrame(addrsR);
    && s.i.pendingError.None?
    && s.readI <= |s.wireI|
    && s.dialled == (if s.i.emittedOutcome then s.i.outcome else None)
    && (s.i.emittedOutcome ==> s.i.outcome.Some?)
    && s.syncFed == (s.i.phase == SyncPending || s.i.phase == InitiatorDone)
    && (s.syncFed ==> s.dialled.Some?)
    && s.wireR == (if s.i.phase == Pending then [] else if s.i.phase == InitiatorDone then connect + SyncFrame() else connect)
    && s.i.outbound == (if s.i.phase == Pending then connect else if s.i.phase == SyncPending then SyncFrame() else [])
    && (match s.i.phase
        case Pending => s.wireI == [] && s.i.recvBuf == [] && s.i.outcome.None?
        case AwaitingConnectReply => s.readI < |reply| && s.i.recvBuf == s.wireI[..s.readI] && s.i.outcome.None?
        case _ =>
          && s.readI == |reply| && s.i.outcome.Some?
          && s.i.outcome.value.remoteAddrs == addrsR && s.i.outcome.value.remoteAddrBytes == EncodeAddrs(addrsR))
  }

  /** The responder: what it read of the initiator's stream, what it replied, what it reported. */
  predicate ResponderInv(s: Sys, addrsI: seq<M.Addr>, addrsR: seq<M.Addr>)
    requires Fits(addrsI) && Fits(addrsR)
  {
    var connect, reply := ConnectFrame(addrsI), ConnectFrame(addrsR);
    var heard := ConnectReceived(addrsI, EncodeAddrs(addrsI));
    && s.r.pendingError.None?
    && s.readR <= |s.wireR|
    && (match s.r.phase
        case AwaitingConnect =>
          && s.readR < |connect| && s.r.recvBuf == s.wireR[..s.readR]
          && s.r.connectReply == reply && s.r.outbound == [] && s.wireI == []
          && s.seen + s.r.events == []
        case AwaitingSync =>
          && |connect| <= s.readR < |connect| + |SyncFrame()| && s.r.recvBuf == s.wireR[|connect|..s.readR]
          && s.r.connectReply == [] && s.wireI + s.r.outbound == reply
          && s.seen + s.r.events == [heard]
        case ResponderDone =>
          && s.readR == |connect| + |SyncFrame()|
          && s.r.connectReply == [] && s.wireI + s.r.outbound == reply
          && s.seen + s.r.events == [heard, SyncReceived]
        case ResponderFailed => false)
  }

  predicate Inv(s: Sys, addrsI: seq<M.Addr>, addrsR: seq<M.Addr>)
    requires Fits(addrsI) && Fits(addrsR)
  {
    InitiatorInv(s, addrsI, addrsR) && ResponderInv(s, addrsI, addrsR) && !s.failed
  }

  lemma InitInv(addrsI: seq<M.Addr>, addrsR: seq<M.Addr>)
    requires Fits(addrsI) && Fits(addrsR)
    ensures Inv(Init(addrsI, addrsR), addrsI, addrsR)
  {
    FrameNonEmpty(addrsI);
    FrameNonEmpty(addrsR);
  }

  lemma FrameNonEmpty(addrs: seq<M.Addr>)
    requires Fits(addrs)
    ensures |ConnectFrame(addrs)| > 0
  {
  }

  lemma PollInitiatorInv(s: Sys, addrsI: seq<M.Addr>, addrsR: seq<M.Addr>)
    requires Fits(addrsI) && Fits(addrsR) && Inv(s, addrsI, addrsR)
    ensures Inv(Next(s, PollInitiator), addrsI, addrsR)
  {
    hide ConnectPayload, Frame.Encode, EncodeAddrs;
    FrameNonEmpty(addrsI);
    FrameNonEmpty(addrsR);
    var connect := ConnectFrame(addrsI);
    assert [] + connect == connect;
    assert s.i.outbound == [] ==> s.wireR + s.i.outbound == s.wireR;
    var t := Next(s, PollInitiator);
    assert s.wireR <= t.wireR;
    assert t.wireR[..s.readR] == s.wireR[..s.readR];
    if |connect| <= s.readR {
      assert t.wireR[|connect|..s.readR] == s.wireR[|connect|..s.readR];
    }
  }

  /** The initiator's part does not look at the responder. */
  lemma InitiatorFrame(s: Sys, t: Sys, addrsI: seq<M.Addr>, addrsR: seq<M.Addr>)
    requires Fits(addrsI) && Fits(addrsR) && InitiatorInv(s, addrsI, addrsR)
    requires t == s.(r := t.r, readR := t.readR, failed := t.failed, seen := t.seen)
    ensures InitiatorInv(t, addrsI, addrsR)
  {
    hide ConnectPayload, Frame.Encode, EncodeAddrs;
  }

  /** What the initiator has written is a front of CONNECT and SYNC. */
  lemma WireShape(s: Sys, addrsI: seq<M.Addr>, addrsR: seq<M.Addr>)
    requires Fits(addrsI) && Fits(addrsR) && InitiatorInv(s, addrsI, addrsR)
    ensures s.wireR <= ConnectFrame(addrsI) + SyncFrame()
  {
    hide ConnectPayload, Frame.Encode, EncodeAddrs;
  }

  /** Bytes the responder adds do not disturb what the initiator has read. */
  lemma InitiatorMoreReply(s: Sys, t: Sys, addrsI: seq<M.Addr>, addrsR: seq<M.Addr>)
    requires Fits(addrsI) && Fits(addrsR) && InitiatorInv(s, addrsI, addrsR)
    requires t == s.(r := t.r, wireI := t.wireI) && s.wireI <= t.wireI && s.i.phase != Pending
    ensures InitiatorInv(t, addrsI, addrsR)
  {
    hide ConnectPayload, Frame.Encode, EncodeAddrs;
    assert t.wireI[..s.readI] == s.wireI[..s.readI];
  }

  lemma ReplyMeansSent(s: Sys, addrsI: seq<M.Addr>, addrsR: seq<M.Addr>)
    requires Fits(addrsI) && Fits(addrsR) && Inv(s, addrsI, addrsR) && s.r.outbound != []
    ensures s.i.phase != Pending
  {
    hide ConnectPayload, Frame.Encode, EncodeAddrs;
    FrameNonEmpty(addrsI);
  }

  lemma PollResponderInv(s: Sys, addrsI: seq<M.Addr>, addrsR: seq<M.Addr>)
    requires Fits(addrsI) && Fits(addrsR) && Inv(s, addrsI, addrsR)
    ensures Inv(Next(s, PollResponder), addrsI, addrsR)
  {
    hide ConnectPayload, Frame.Encode, EncodeAddrs, InitiatorInv, ConnectFrame;
    var t := Next(s, PollResponder);
    if s.r.outbound != [] {
      ReplyMeansSent(s, addrsI, addrsR);
      InitiatorMoreReply(s, t, addrsI, addrsR);
      assert t.wireI + t.r.outbound == s.wireI + s.r.outbound;
    } else {
      InitiatorFrame(s, t, addrsI, addrsR);
      if s.r.events != [] {
        assert t.seen + t.r.events == s.seen + s.r.events;
      }
    }
  }

  /** CONNECT bytes, and perhaps SYNC bytes behind them, reach a responder that awaits CONNECT. */
  lemma DeliverConnectInv(s: Sys, n: nat, addrsI: seq<M.Addr>, addrsR: seq<M.Addr>)
    requires Fits(addrsI) && Fits(addrsR) && Inv(s, addrsI, addrsR) && Enabled(s, DeliverToResponder(n))
    requires s.r.phase == AwaitingConnect
    ensures Inv(Next(s, DeliverToResponder(n)), addrsI, addrsR)
  {
    hide ConnectPayload, Frame.Encode, EncodeAddrs, TryDecode, InitiatorInv, ConnectFrame;
    InitiatorFrame(s, Next(s, DeliverToResponder(n)), addrsI, addrsR);
    WireShape(s, addrsI, addrsR);
    var connect, sync, m := ConnectFrame(addrsI), SyncFrame(), s.readR + n;
    var r := Received(s.r, s.wireR[s.readR..m]);
    assert r.recvBuf == s.wireR[..m];
    if m < |connect| {
      assert r.recvBuf == connect[..m];
      ResponderWaits(r, addrsI, m);
    } else {
      var rest := sync[..m - |connect|];
      assert r.recvBuf == connect + rest && s.wireR[|connect|..m] == rest;
      ResponderReadsConnect(r, addrsI, rest);
      ResponderReadsSync(Replied(r, addrsI, rest), |rest|);
      EventsAppend(s, ConnectReceived(addrsI, EncodeAddrs(addrsI)));
    }
  }

  lemma DeliverSyncInv(s: Sys, n: nat, addrsI: seq<M.Addr>, addrsR: seq<M.Addr>)
    requires Fits(addrsI) && Fits(addrsR) && Inv(s, addrsI, addrsR) && Enabled(s, DeliverToResponder(n))
    requires s.r.phase == AwaitingSync
    ensures Inv(Next(s, DeliverToResponder(n)), addrsI, addrsR)
  {
    hide ConnectPayload, Frame.Encode, EncodeAddrs, TryDecode, InitiatorInv, ConnectFrame, SyncFrame, Fits;
    InitiatorFrame(s, Next(s, DeliverToResponder(n)), addrsI, addrsR);
    WireShape(s, addrsI, addrsR);
    var connect, sync, m := ConnectFrame(addrsI), SyncFrame(), s.readR + n;
    var r := Received(s.r, s.wireR[s.readR..m]);
    assert r.recvBuf == s.wireR[|connect|..m] == sync[..m - |connect|];
    ResponderReadsSync(r, m - |connect|);
    EventsAppend(s, SyncReceived);
  }

  lemma DeliverDoneInv(s: Sys, n: nat, addrsI: seq<M.Addr>, addrsR: seq<M.Addr>)
    requires Fits(addrsI) && Fits(addrsR) && Inv(s, addrsI, addrsR) && Enabled(s, DeliverToResponder(n))
    requires s.r.phase == ResponderDone
    ensures Inv(Next(s, DeliverToResponder(n)), addrsI, addrsR)
  {
    hide ConnectPayload, Frame.Encode, EncodeAddrs, TryDecode;
  }

  lemma EventsAppend(s: Sys, e: ResponderEvent)
    ensures s.seen + (s.r.events + [e]) == (s.seen + s.r.events) + [e]
    ensures s.seen + (s.r.events + [e] + [SyncReceived]) == (s.seen + s.r.events) + [e, SyncReceived]
    ensures s.wireI + (s.r.outbound + s.r.connectReply) == s.wireI + s.r.outbound + s.r.connectReply
  {
  }

  /** The responder's part does not look at the initiator. */
  lemma ResponderFrame(s: Sys, t: Sys, addrsI: seq<M.Addr>, addrsR: seq<M.Addr>)
    requires Fits(addrsI) && Fits(addrsR) && ResponderInv(s, addrsI, addrsR)
    requires t == s.(i := t.i, readI := t.readI, failed := t.failed)
    ensures ResponderInv(t, addrsI, addrsR)
  {
    hide ConnectPayload, Frame.Encode, EncodeAddrs;
  }

  /** What the responder has written is a front of its CONNECT. */
  lemma ReplyShape(s: Sys, addrsI: seq<M.Addr>, addrsR: seq<M.Addr>)
    requires Fits(addrsI) && Fits(addrsR) && ResponderInv(s, addrsI, addrsR)
    ensures s.wireI <= ConnectFrame(addrsR)
  {
    hide ConnectPayload, Frame.Encode, EncodeAddrs;
  }

  lemma DeliverToInitiatorInv(s: Sys, n: nat, rttMs: nat, addrsI: seq<M.Addr>, addrsR: seq<M.Addr>)
    requires Fits(addrsI) && Fits(addrsR) && Inv(s, addrsI, addrsR) && Enabled(s, DeliverToInitiator(n, rttMs))
    ensures Inv(Next(s, DeliverToInitiator(n, rttMs)), addrsI, addrsR)
  {
    hide ConnectPayload, Frame.Encode, EncodeAddrs, TryDecodeReply, ResponderInv, ConnectFrame;
    var reply, m := ConnectFrame(addrsR), s.readI + n;
    ReplyShape(s, addrsI, addrsR);
    ResponderFrame(s, Next(s, DeliverToInitiator(n, rttMs)), addrsI, addrsR);
    if s.i.phase == AwaitingConnectReply {
      var i := s.i.(recvBuf := s.i.recvBuf + s.wireI[s.readI..m]);
      assert i.recvBuf == s.wireI[..m] == reply[..m];
      InitiatorReads(i, addrsR, m, rttMs);
    }
  }

  lemma FeedSyncInv(s: Sys, addrsI: seq<M.Addr>, addrsR: seq<M.Addr>)
    requires Fits(addrsI) && Fits(addrsR) && Inv(s, addrsI, addrsR) && Enabled(s, FeedSync)
    ensures Inv(Next(s, FeedSync), addrsI, addrsR)
  {
    SyncFits();
    hide ConnectPayload, Frame.Encode, EncodeAddrs;
    assert s.i.outbound + SyncFrame() == SyncFrame();
  }

  lemma CloseToResponderInv(s: Sys, addrsI: seq<M.Addr>, addrsR: seq<M.Addr>)
    requires Fits(addrsI) && Fits(addrsR) && Inv(s, addrsI, addrsR)
    ensures Inv(Next(s, CloseToResponder), addrsI, addrsR)
  {
    hide ConnectPayload, Frame.Encode, EncodeAddrs;
    var connect, sync := ConnectFrame(addrsI), SyncFrame();
    assert s.wireR <= connect + sync;
    if s.r.phase == AwaitingConnect {
      assert s.r.recvBuf == connect[..s.readR];
      ResponderWaits(s.r, addrsI, s.readR);
    } else if s.r.phase == AwaitingSync {
      assert s.r.recvBuf == sync[..s.readR - |connect|];
      ResponderReadsSync(s.r, s.readR - |connect|);
    }
  }

  lemma NotFailed(s: Sys, addrsI: seq<M.Addr>, addrsR: seq<M.Addr>)
    requires Fits(addrsI) && Fits(addrsR) && Inv(s, addrsI, addrsR)
    ensures !s.r.phase.ResponderFailed?
  {
  }

  lemma NextInv(s: Sys, a: Action, addrsI: seq<M.Addr>, addrsR: seq<M.Addr>)
    requires Fits(addrsI) && Fits(addrsR) && Inv(s, addrsI, addrsR) && Enabled(s, a)
    ensures Inv(Next(s, a), addrsI, addrsR)
  {
    hide Next, Inv;
    match a
    case PollInitiator => PollInitiatorInv(s, addrsI, addrsR);
    case PollResponder => PollResponderInv(s, addrsI, addrsR);
    case DeliverToResponder(n) =>
      NotFailed(s, addrsI, addrsR);
      match s.r.phase {
        case AwaitingConnect => DeliverConnectInv(s, n, addrsI, addrsR);
        case AwaitingSync => DeliverSyncInv(s, n, addrsI, addrsR);
        case ResponderDone => DeliverDoneInv(s, n, addrsI, addrsR);
      }
    case DeliverToInitiator(n, rtt) => DeliverToInitiatorInv(s, n, rtt, addrsI, addrsR);
    case FeedSync => FeedSyncInv(s, addrsI, addrsR);
    case CloseToResponder => CloseToResponderInv(s, addrsI, addrsR);
    case CloseToInitiator => CloseToInitiatorInv(s, addrsI, addrsR);
  }

  lemma CloseToInitiatorInv(s: Sys, addrsI: seq<M.Addr>, addrsR: seq<M.Addr>)
    requires Fits(addrsI) && Fits(addrsR) && Inv(s, addrsI, addrsR)
    ensures Inv(Next(s, CloseToInitiator), addrsI, addrsR)
  {
    assert s.i.pendingError.None? by {
      hide ConnectPayload, Frame.Encode, EncodeAddrs, ResponderInv;
    }
    hide Inv;
    assert Next(s, CloseToInitiator) == s;
  }

  lemma {:induction false} RunInv(s: Sys, actions: seq<Action>, addrsI: seq<M.Addr>, addrsR: seq<M.Addr>)
    requires Fits(addrsI) && Fits(addrsR) && Inv(s, addrsI, addrsR) && Run(s, actions).Some?
    ensures Inv(Run(s, actions).value, addrsI, addrsR)
    decreases |actions|
  {
    hide Next, Inv, Enabled;
    if actions != [] {
      NextInv(s, actions[0], addrsI, addrsR);
      RunInv(Next(s, actions[0]), actions[1..], addrsI, addrsR);
    }
  }

  // ---- what callers may rely on ----

  /** The only things a caller of either party can ever have seen. */
  predicate Agreement(s: Sys, addrsI: seq<M.Addr>, addrsR: seq<M.Addr>)
    requires Fits(addrsI) && Fits(addrsR)
  {
    && !s.failed
    && s.seen <= [ConnectReceived(addrsI, EncodeAddrs(addrsI)), SyncReceived]
    && (s.dialled.Some? ==> s.dialled.value.remoteAddrs == addrsR && s.dialled.value.remoteAddrBytes == EncodeAddrs(addrsR))
    && (SyncReceived in s.seen ==> s.dialled.Some?)
  }

  /** In every run neither side errs, each learns exactly the other's list, and SYNC follows the dial. */
  lemma ExchangeIsSafe(addrsI: seq<M.Addr>, addrsR: seq<M.Addr>, actions: seq<Action>)
    requires Fits(addrsI) && Fits(addrsR) && Run(Init(addrsI, addrsR), actions).Some?
    ensures Agreement(Run(Init(addrsI, addrsR), actions).value, addrsI, addrsR)
  {
    InitInv(addrsI, addrsR);
    RunInv(Init(addrsI, addrsR), actions, addrsI, addrsR);
    InvAgreement(Run(Init(addrsI, addrsR), actions).value, addrsI, addrsR);
  }

  lemma InvAgreement(s: Sys, addrsI: seq<M.Addr>, addrsR: seq<M.Addr>)
    requires Fits(addrsI) && Fits(addrsR) && Inv(s, addrsI, addrsR)
    ensures Agreement(s, addrsI, addrsR)
  {
    hide ConnectPayload, Frame.Encode, EncodeAddrs;
    var all := s.seen + s.r.events;
    assert s.seen == all[..|s.seen|];
    if SyncReceived in s.seen {
      assert SyncReceived in all;
      assert s.r.phase == ResponderDone;
      SyncNonEmpty();
      assert |s.wireR| > |ConnectFrame(addrsI)|;
    }
  }

  lemma SyncNonEmpty()
    ensures |SyncFrame()| > 0
  {
  }

  /** No byte in flight, nothing to poll, SYNC fed if it could be. */
  predicate Quiescent(s: Sys) {
    && s.readR == |s.wireR| && s.readI == |s.wireI|
    && ResponderPollOutput(s.r).output.None?
    && InitiatorPollOutput(s.i).output.None? && InitiatorPollOutput(s.i).state == s.i
    && !Enabled(s, FeedSync)
  }

  /** A run that stops only when nothing is left to do has completed the whole exchange. */
  lemma QuiescentIsComplete(addrsI: seq<M.Addr>, addrsR: seq<M.Addr>, actions: seq<Action>)
    requires Fits(addrsI) && Fits(addrsR) && Run(Init(addrsI, addrsR), actions).Some?
    requires Quiescent(Run(Init(addrsI, addrsR), actions).value)
    ensures var s := Run(Init(addrsI, addrsR), actions).value;
            && s.i.phase == InitiatorDone && s.r.phase == ResponderDone
            && s.seen == [ConnectReceived(addrsI, EncodeAddrs(addrsI)), SyncReceived]
            && s.dialled.Some? && s.dialled.value.remoteAddrs == addrsR
  {
    InitInv(addrsI, addrsR);
    RunInv(Init(addrsI, addrsR), actions, addrsI, addrsR);
    QuiescentInv(Run(Init(addrsI, addrsR), actions).value, addrsI, addrsR);
  }

  lemma QuiescentInv(s: Sys, addrsI: seq<M.Addr>, addrsR: seq<M.Addr>)
    requires Fits(addrsI) && Fits(addrsR) && Inv(s, addrsI, addrsR) && Quiescent(s)
    ensures s.i.phase == InitiatorDone && s.r.phase == ResponderDone
    ensures s.seen == [ConnectReceived(addrsI, EncodeAddrs(addrsI)), SyncReceived]
    ensures s.dialled.Some? && s.dialled.value.remoteAddrs == addrsR
  {
    FrameNonEmpty(addrsI);
    FrameNonEmpty(addrsR);
    SyncNonEmpty();
    hide ConnectPayload, Frame.Encode, EncodeAddrs;
    assert s.seen + [] == s.seen && s.wireI + [] == s.wireI;
  }
}
