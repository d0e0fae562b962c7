/**
 The DCUtR state machines (crates/dcutr/src/lib.rs) on values.

 `Responder` and `Initiator` hold the fields of the source's structs.  The theorems of this
 module are about the responder's receive path: what it does depends on the bytes it
 received, not on how the stream was cut, and its size backstop is never reached.
 */
module Dcutr {
  import opened Bytes
  import Frame
  import V = Varint
  import HP = HolePunch
  import M = Multiaddr

  const MAX_MESSAGE: U64 := 4096
  const MAX_PREFIX := 2

  datatype ResponderPhase = AwaitingConnect | AwaitingSync | ResponderDone | ResponderFailed

  datatype InitiatorPhase = Pending | AwaitingConnectReply | ReadyToSync | SyncPending | InitiatorDone

  datatype DcutrError =
    | MessageTooLarge(size: nat)
    | FrameTooLarge(len: nat)
    | Malformed(error: HP.MessageError)
    | UnexpectedInResponder(kind: HP.Kind, at: ResponderPhase)
    | UnexpectedReply(kind: HP.Kind)
    | CannotSync(phase: InitiatorPhase)

  datatype ResponderEvent =
    | ConnectReceived(remoteAddrs: seq<M.Addr>, remoteAddrBytes: seq<seq<Byte>>)
    | SyncReceived

  datatype DialNow = DialNow(remoteAddrs: seq<M.Addr>, remoteAddrBytes: seq<seq<Byte>>, rttMs: nat)

  /** `enforce_max_size`. */
  predicate WithinBackstop(buf: seq<Byte>) {
    |buf| <= MAX_MESSAGE + MAX_PREFIX
  }

  /** `checked_outbound_frame`. */
  function CheckedFrame(payload: seq<Byte>): Result<seq<Byte>, DcutrError> {
    if |payload| > MAX_MESSAGE then Err(MessageTooLarge(|payload|)) else Ok(Frame.Encode(payload))
  }

  function EncodeAddrs(addrs: seq<M.Addr>): (raw: seq<seq<Byte>>)
    requires forall a | a in addrs :: M.ValidAddr(a)
    ensures |raw| == |addrs|
    ensures forall i | 0 <= i < |addrs| :: raw[i] == M.ToBytes(addrs[i])
  {
    if addrs == [] then [] else [M.ToBytes(addrs[0])] + EncodeAddrs(addrs[1..])
  }

  /** `decode_remote_addrs`: entries that do not parse are dropped. */
  function DecodeAddrs(raw: seq<seq<Byte>>): seq<M.Addr> {
    if raw == [] then []
    else
      match M.FromBytes(raw[0])
      case Err(_) => DecodeAddrs(raw[1..])
      case Ok(a) => [a] + DecodeAddrs(raw[1..])
  }

  lemma {:induction false} DecodeEncodeAddrs(addrs: seq<M.Addr>)
    requires forall a | a in addrs :: M.ValidAddr(a)
    ensures DecodeAddrs(EncodeAddrs(addrs)) == addrs
  {
    if addrs != [] {
      M.FromToBytes(addrs[0]);
      DecodeEncodeAddrs(addrs[1..]);
      assert EncodeAddrs(addrs)[1..] == EncodeAddrs(addrs[1..]);
    }
  }

  function ConnectPayload(addrs: seq<M.Addr>): seq<Byte>
    requires forall a | a in addrs :: M.ValidAddr(a)
  {
    HP.Encode(HP.Message(HP.Connect, EncodeAddrs(addrs)))
  }

  const SYNC_PAYLOAD: seq<Byte> := HP.Encode(HP.Message(HP.Sync, []))

  // ---- responder ----

  datatype Responder = Responder(
    connectReply: seq<Byte>,
    outbound: seq<Byte>,
    recvBuf: seq<Byte>,
    phase: ResponderPhase,
    events: seq<ResponderEvent>,
    pendingError: Option<DcutrError>)

  function NewResponder(own: seq<M.Addr>): Responder
    requires forall a | a in own :: M.ValidAddr(a)
  {
    match CheckedFrame(ConnectPayload(own))
    case Ok(frame) => Responder(frame, [], [], AwaitingConnect, [], None)
    case Err(e) => Responder([], [], [], ResponderFailed, [], Some(e))
  }

  predicate Over(r: Responder) {
    r.phase == ResponderDone || r.phase == ResponderFailed
  }

  /** A state and the error the call returned, if any. */
  datatype Step = Step(state: Responder, error: Option<DcutrError>)

  function Fail(r: Responder, e: DcutrError): Step {
    Step(r.(phase := ResponderFailed), Some(e))
  }

  /** The `match` on state and message kind, once the frame is drained. */
  function Dispatch(r: Responder, msg: HP.Message): Step {
    if r.phase == AwaitingConnect && msg.kind == HP.Connect then
      Step(r.(outbound := r.outbound + r.connectReply, connectReply := [], phase := AwaitingSync,
              events := r.events + [ConnectReceived(DecodeAddrs(msg.obsAddrs), msg.obsAddrs)]), None)
    else if r.phase == AwaitingSync && msg.kind == HP.Sync then
      Step(r.(phase := ResponderDone, events := r.events + [SyncReceived]), None)
    else Fail(r, UnexpectedInResponder(msg.kind, r.phase))
  }

  /** One complete frame taken off the buffer. */
  function OnFrame(r: Responder, payload: seq<Byte>, consumed: nat): (s: Step)
    requires 0 < consumed <= |r.recvBuf|
    ensures s.error.None? ==> s.state.recvBuf == r.recvBuf[consumed..]
  {
    match HP.Decode(payload)
    case Err(e) => Fail(r, Malformed(e))
    case Ok(msg) => Dispatch(r.(recvBuf := r.recvBuf[consumed..]), msg)
  }

  /** `try_decode`. */
  function TryDecode(r: Responder): Step
    decreases |r.recvBuf|
  {
    if Over(r) then Step(r, None)
    else
      match Frame.Decode(r.recvBuf, MAX_MESSAGE)
      case Complete(payload, consumed) =>
        Frame.DecodeExact(r.recvBuf, MAX_MESSAGE);
        var s := OnFrame(r, payload, consumed);
        if s.error.Some? then s else TryDecode(s.state)
      case Incomplete =>
        if WithinBackstop(r.recvBuf) then Step(r, None) else Fail(r, MessageTooLarge(|r.recvBuf|))
      case TooLarge(len) => Fail(r, FrameTooLarge(len))
      case Error(e) => Fail(r, Malformed(HP.VarintFault(e)))
  }

  function Received(r: Responder, data: seq<Byte>): Responder {
    r.(recvBuf := r.recvBuf + data)
  }

  function OnData(r: Responder, data: seq<Byte>): Step {
    if Over(r) then Step(r, None) else TryDecode(Received(r, data))
  }

  /** A stalled receive buffer never reaches the backstop, so `enforce_max_size` never fails. */
  lemma BackstopUnreached(buf: seq<Byte>)
    requires Frame.Decode(buf, MAX_MESSAGE).Incomplete?
    ensures |buf| < MAX_MESSAGE + MAX_PREFIX && WithinBackstop(buf)
  {
    assert V.Len(MAX_MESSAGE) == 2;
    Frame.IncompleteIsShort(buf, MAX_MESSAGE);
  }

  /** `TryDecode` reports no size error on wire input: every `MessageTooLarge` is ruled out. */
  lemma {:induction false} NeverMessageTooLarge(r: Responder)
    ensures TryDecode(r).error.None? || !TryDecode(r).error.value.MessageTooLarge?
    decreases |r.recvBuf|
  {
    hide OnFrame;
    if !Over(r) {
      match Frame.Decode(r.recvBuf, MAX_MESSAGE)
      case Complete(payload, consumed) =>
        Frame.DecodeExact(r.recvBuf, MAX_MESSAGE);
        FrameError(r, payload, consumed);
        if OnFrame(r, payload, consumed).error.None? {
          NeverMessageTooLarge(OnFrame(r, payload, consumed).state);
        }
      case Incomplete => BackstopUnreached(r.recvBuf);
      case _ =>
    }
  }

  lemma FrameError(r: Responder, payload: seq<Byte>, consumed: nat)
    requires 0 < consumed <= |r.recvBuf|
    ensures OnFrame(r, payload, consumed).error.Some? ==> !OnFrame(r, payload, consumed).error.value.MessageTooLarge?
  {
  }

  // ---- independence of chunking ----

  /** Equal in everything the caller sees; once the exchange is over, unread bytes do not matter. */
  predicate SameState(a: Responder, b: Responder) {
    a.(recvBuf := b.recvBuf) == b && (Over(a) || a.recvBuf == b.recvBuf)
  }

  predicate Same(a: Step, b: Step) {
    SameState(a.state, b.state) && a.error == b.error
  }

  /** Decoding what is there and then the rest, against decoding everything at once. */
  lemma {:induction false} TryDecodeSplit(r: Responder, more: seq<Byte>)
    ensures var first := TryDecode(r);
            var whole := TryDecode(Received(r, more));
            if first.error.Some? || Over(first.state) then Same(whole, first)
            else whole == TryDecode(Received(first.state, more))
    decreases |r.recvBuf|
  {
    hide OnFrame;
    if !Over(r) {
      var f := Frame.Decode(r.recvBuf, MAX_MESSAGE);
      if f.Incomplete? {
        BackstopUnreached(r.recvBuf);
      } else {
        Frame.DecodeExtends(r.recvBuf, MAX_MESSAGE, more);
        if f.Complete? {
          Frame.DecodeExact(r.recvBuf, MAX_MESSAGE);
          OnFrameExtends(r, f.payload, f.consumed, more);
          if OnFrame(r, f.payload, f.consumed).error.None? {
            TryDecodeSplit(OnFrame(r, f.payload, f.consumed).state, more);
          }
        }
      }
    }
  }

  lemma OnFrameExtends(r: Responder, payload: seq<Byte>, consumed: nat, more: seq<Byte>)
    requires 0 < consumed <= |r.recvBuf|
    ensures var s := OnFrame(r, payload, consumed);
            var t := OnFrame(Received(r, more), payload, consumed);
            t.error == s.error && t.state == Received(s.state, more)
    ensures OnFrame(r, payload, consumed).error.Some? ==> Over(OnFrame(r, payload, consumed).state)
  {
    assert (r.recvBuf + more)[consumed..] == r.recvBuf[consumed..] + more;
  }

  /** Two deliveries do what their concatenation does. */
  lemma OnDataSplit(r: Responder, a: seq<Byte>, b: seq<Byte>)
    ensures var first := OnData(r, a);
            var second := OnData(first.state, b);
            Same(Step(second.state, if first.error.Some? then first.error else second.error), OnData(r, a + b))
  {
    hide TryDecode;
    if !Over(r) {
      TryDecodeSplit(Received(r, a), b);
      assert r.recvBuf + (a + b) == (r.recvBuf + a) + b;
      ErrorEnds(Received(r, a));
    }
  }

  lemma {:induction false} ErrorEnds(r: Responder)
    ensures TryDecode(r).error.Some? ==> Over(TryDecode(r).state)
    decreases |r.recvBuf|
  {
    hide OnFrame;
    if !Over(r) && Frame.Decode(r.recvBuf, MAX_MESSAGE).Complete? {
      var f := Frame.Decode(r.recvBuf, MAX_MESSAGE);
      Frame.DecodeExact(r.recvBuf, MAX_MESSAGE);
      OnFrameExtends(r, f.payload, f.consumed, []);
      if OnFrame(r, f.payload, f.consumed).error.None? {
        ErrorEnds(OnFrame(r, f.payload, f.consumed).state);
      }
    }
  }

  function Concat(chunks: seq<seq<Byte>>): seq<Byte> {
    if chunks == [] then [] else chunks[0] + Concat(chunks[1..])
  }

  /** Feeds chunk after chunk and keeps the first error. */
  function Feed(r: Responder, chunks: seq<seq<Byte>>): Step
    decreases |chunks|
  {
    if chunks == [] then Step(r, None)
    else
      var first := OnData(r, chunks[0]);
      var rest := Feed(first.state, chunks[1..]);
      Step(rest.state, if first.error.Some? then first.error else rest.error)
  }

  /** Nothing left to decode: the state between two inputs. */
  predicate Stalled(r: Responder) {
    TryDecode(r) == Step(r, None)
  }

  /** Between inputs a responder is stalled, so `RemoteWriteClosed` changes nothing. */
  lemma {:induction false} TryDecodeStalls(r: Responder)
    ensures Stalled(TryDecode(r).state)
    decreases |r.recvBuf|
  {
    hide OnFrame;
    if !Over(r) && Frame.Decode(r.recvBuf, MAX_MESSAGE).Complete? {
      var f := Frame.Decode(r.recvBuf, MAX_MESSAGE);
      Frame.DecodeExact(r.recvBuf, MAX_MESSAGE);
      OnFrameExtends(r, f.payload, f.consumed, []);
      if OnFrame(r, f.payload, f.consumed).error.None? {
        TryDecodeStalls(OnFrame(r, f.payload, f.consumed).state);
      }
    }
  }

  /** However the stream is cut, events, replies, phase and first error are those of the whole string. */
  lemma {:induction false} ChunkIndependence(r: Responder, chunks: seq<seq<Byte>>)
    requires Stalled(r)
    ensures Same(Feed(r, chunks), OnData(r, Concat(chunks)))
    decreases |chunks|
  {
    hide TryDecode;
    if chunks == [] {
      assert Received(r, []) == r by {
        assert r.recvBuf + [] == r.recvBuf;
      }
    } else {
      var first := OnData(r, chunks[0]);
      OnDataStalls(r, chunks[0]);
      ChunkIndependence(first.state, chunks[1..]);
      OnDataSplit(r, chunks[0], Concat(chunks[1..]));
      OverIsFinal(Feed(first.state, chunks[1..]).state, OnData(first.state, Concat(chunks[1..])).state);
    }
  }

  lemma OnDataStalls(r: Responder, data: seq<Byte>)
    ensures Stalled(OnData(r, data).state)
  {
    if !Over(r) {
      TryDecodeStalls(Received(r, data));
    }
  }

  lemma OverIsFinal(a: Responder, b: Responder)
    requires SameState(a, b)
    ensures Over(a) == Over(b)
  {
  }

  // ---- initiator ----

  datatype Initiator = Initiator(
    outbound: seq<Byte>,
    recvBuf: seq<Byte>,
    phase: InitiatorPhase,
    outcome: Option<DialNow>,
    emittedOutcome: bool,
    pendingError: Option<DcutrError>)

  function NewInitiator(own: seq<M.Addr>): Initiator
    requires forall a | a in own :: M.ValidAddr(a)
  {
    match CheckedFrame(ConnectPayload(own))
    case Ok(frame) => Initiator(frame, [], Pending, None, false, None)
    case Err(e) => Initiator([], [], InitiatorDone, None, false, Some(e))
  }

  datatype IStep = IStep(state: Initiator, error: Option<DcutrError>)

  function TakeOutbound(i: Initiator): Initiator {
    i.(outbound := [],
       phase := if i.phase == Pending then AwaitingConnectReply
                else if i.phase == SyncPending then InitiatorDone else i.phase)
  }

  /** `fail_reply`. */
  function FailReply(i: Initiator, e: DcutrError): IStep {
    IStep(i.(phase := InitiatorDone, recvBuf := []), Some(e))
  }

  function TryDecodeReply(i: Initiator, rttMs: nat): IStep {
    if i.phase != AwaitingConnectReply then IStep(i, None)
    else
      match Frame.Decode(i.recvBuf, MAX_MESSAGE)
      case Complete(payload, consumed) =>
        Frame.DecodeExact(i.recvBuf, MAX_MESSAGE);
        (match HP.Decode(payload)
         case Err(e) => FailReply(i, Malformed(e))
         case Ok(reply) =>
           if reply.kind != HP.Connect then FailReply(i, UnexpectedReply(reply.kind))
           else IStep(i.(recvBuf := i.recvBuf[consumed..], phase := ReadyToSync, emittedOutcome := false,
                         outcome := Some(DialNow(DecodeAddrs(reply.obsAddrs), reply.obsAddrs, rttMs))), None))
      case Incomplete =>
        if WithinBackstop(i.recvBuf) then IStep(i, None) else FailReply(i, MessageTooLarge(|i.recvBuf|))
      case TooLarge(len) => FailReply(i, FrameTooLarge(len))
      case Error(e) => FailReply(i, Malformed(HP.VarintFault(e)))
  }

  function OnReplyData(i: Initiator, data: seq<Byte>, rttMs: nat): IStep {
    if i.phase != AwaitingConnectReply then IStep(i, None)
    else TryDecodeReply(i.(recvBuf := i.recvBuf + data), rttMs)
  }

  function SendSync(i: Initiator): IStep {
    if i.phase != ReadyToSync then IStep(i, Some(CannotSync(i.phase)))
    else
      match CheckedFrame(SYNC_PAYLOAD)
      case Err(e) => IStep(i, Some(e))
      case Ok(frame) => IStep(i.(outbound := i.outbound + frame, phase := SyncPending), None)
  }

  // ---- the `SansIoProtocol` faces ----

  datatype ResponderInput = RFlush | RData(bytes: seq<Byte>) | RRemoteWriteClosed

  datatype ResponderOutput = ROutbound(bytes: seq<Byte>) | REvent(event: ResponderEvent)

  datatype ResponderPoll = ResponderPoll(state: Responder, output: Option<ResponderOutput>)

  function ResponderHandle(r: Responder, input: ResponderInput): Step {
    if r.pendingError.Some? then Step(r.(pendingError := None), r.pendingError)
    else
      match input
      case RFlush => Step(r, None)
      case RData(bytes) => OnData(r, bytes)
      case RRemoteWriteClosed => TryDecode(r)
  }

  function ResponderPollOutput(r: Responder): ResponderPoll {
    if r.outbound != [] then ResponderPoll(r.(outbound := []), Some(ROutbound(r.outbound)))
    else if r.events != [] then ResponderPoll(r.(events := r.events[1..]), Some(REvent(r.events[0])))
    else ResponderPoll(r, None)
  }

  datatype InitiatorInput = IFlush | IData(bytes: seq<Byte>, rttMs: nat) | IRemoteWriteClosed | ISendSync

  datatype InitiatorOutput = IOutbound(bytes: seq<Byte>) | IOutcome(outcome: DialNow)

  datatype InitiatorPoll = InitiatorPoll(state: Initiator, output: Option<InitiatorOutput>)

  function InitiatorHandle(i: Initiator, input: InitiatorInput): IStep {
    if i.pendingError.Some? then IStep(i.(pendingError := None), i.pendingError)
    else
      match input
      case IFlush => IStep(i, None)
      case IData(bytes, rttMs) => OnReplyData(i, bytes, rttMs)
      case IRemoteWriteClosed => IStep(i, None)
      case ISendSync => SendSync(i)
  }

  function InitiatorPollOutput(i: Initiator): InitiatorPoll {
    var taken := TakeOutbound(i);
    if i.outbound != [] then InitiatorPoll(taken, Some(IOutbound(i.outbound)))
    else if !i.emittedOutcome && i.outcome.Some? then
      InitiatorPoll(taken.(emittedOutcome := true), Some(IOutcome(i.outcome.value)))
    else InitiatorPoll(taken, None)
  }

  // ---- a CONNECT that does not fit ----

  /** A call on a party: an input, or a poll. */
  datatype Call<T> = Give(input: T) | Poll

  function InitiatorAfter(i: Initiator, calls: seq<Call<InitiatorInput>>): Initiator {
    if calls == [] then i
    else
      var before, call := InitiatorAfter(i, calls[..|calls| - 1]), calls[|calls| - 1];
      if call.Poll? then InitiatorPollOutput(before).state else InitiatorHandle(before, call.input).state
  }

  function ResponderAfter(r: Responder, calls: seq<Call<ResponderInput>>): Responder {
    if calls == [] then r
    else
      var before, call := ResponderAfter(r, calls[..|calls| - 1]), calls[|calls| - 1];
      if call.Poll? then ResponderPollOutput(before).state else ResponderHandle(before, call.input).state
  }

  lemma {:induction false} InitiatorStaysMute(i: Initiator, calls: seq<Call<InitiatorInput>>)
    requires i.phase == InitiatorDone && i.outbound == [] && i.outcome.None?
    ensures var j := InitiatorAfter(i, calls); j.phase == InitiatorDone && j.outbound == [] && j.outcome.None?
  {
    if calls != [] {
      InitiatorStaysMute(i, calls[..|calls| - 1]);
    }
  }

  lemma {:induction false} ResponderStaysMute(r: Responder, calls: seq<Call<ResponderInput>>)
    requires r.phase == ResponderFailed && r.outbound == [] && r.events == []
    ensures var q := ResponderAfter(r, calls); q.phase == ResponderFailed && q.outbound == [] && q.events == []
  {
    if calls != [] {
      ResponderStaysMute(r, calls[..|calls| - 1]);
    }
  }

  /** A party whose CONNECT does not fit never puts anything out, whatever it is given; its first input reports why. */
  lemma OversizedConnectFails(own: seq<M.Addr>)
    requires forall a | a in own :: M.ValidAddr(a)
    ensures |ConnectPayload(own)| > MAX_MESSAGE <==>
            forall calls :: InitiatorPollOutput(InitiatorAfter(NewInitiator(own), calls)).output.None?
    ensures |ConnectPayload(own)| > MAX_MESSAGE ==>
            forall calls :: ResponderPollOutput(ResponderAfter(NewResponder(own), calls)).output.None?
    ensures |ConnectPayload(own)| > MAX_MESSAGE ==>
            forall input :: InitiatorHandle(NewInitiator(own), input).error == Some(MessageTooLarge(|ConnectPayload(own)|))
    ensures |ConnectPayload(own)| > MAX_MESSAGE ==>
            forall input :: ResponderHandle(NewResponder(own), input).error == Some(MessageTooLarge(|ConnectPayload(own)|))
  {
    hide ConnectPayload;
    if |ConnectPayload(own)| > MAX_MESSAGE {
      forall calls
        ensures InitiatorPollOutput(InitiatorAfter(NewInitiator(own), calls)).output.None?
      {
        InitiatorStaysMute(NewInitiator(own), calls);
      }
      forall calls
        ensures ResponderPollOutput(ResponderAfter(NewResponder(own), calls)).output.None?
      {
        ResponderStaysMute(NewResponder(own), calls);
      }
    } else {
      var none: seq<Call<InitiatorInput>> := [];
      assert InitiatorPollOutput(InitiatorAfter(NewInitiator(own), none)).output.Some?;
    }
  }
}
