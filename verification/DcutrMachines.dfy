/** The DCUtR structs with their fields updated in place (crates/dcutr/src/lib.rs), tied to the values of `Dcutr`. */
module DcutrMachines {
  import opened Bytes
  import opened Dcutr
  import Frame
  import HP = HolePunch
  import M = Multiaddr

  class DcutrResponder {
    var connectReply: seq<Byte>
    var outbound: seq<Byte>
    var recvBuf: seq<Byte>
    var phase: ResponderPhase
    var events: seq<ResponderEvent>
    var pendingError: Option<DcutrError>

    function State(): Responder
      reads this
    {
      Responder(connectReply, outbound, recvBuf, phase, events, pendingError)
    }

    constructor (own: seq<M.Addr>)
      requires forall a | a in own :: M.ValidAddr(a)
      ensures State() == NewResponder(own)
    {
      outbound, recvBuf, events := [], [], [];
      var frame := CheckedFrame(ConnectPayload(own));
      if frame.Ok? {
        connectReply, phase, pendingError := frame.value, AwaitingConnect, None;
      } else {
        connectReply, phase, pendingError := [], ResponderFailed, Some(frame.error);
      }
    }

    method HandleInput(input: ResponderInput) returns (error: Option<DcutrError>)
      modifies this
      ensures Step(State(), error) == ResponderHandle(old(State()), input)
    {
      if pendingError.Some? {
        error := pendingError;
        pendingError := None;
        return;
      }
      match input
      case RFlush => error := None;
      case RData(bytes) =>
        if phase == ResponderDone || phase == ResponderFailed {
          return None;
        }
        recvBuf := recvBuf + bytes;
        error := TryDecodeLoop();
      case RRemoteWriteClosed => error := TryDecodeLoop();
    }

    /** The loop of `try_decode`: frames come off the buffer until it stalls, completes or fails. */
    method TryDecodeLoop() returns (error: Option<DcutrError>)
      modifies this
      ensures Step(State(), error) == TryDecode(old(State()))
    {
      hide HP.Decode, Frame.Decode;
      while true
        invariant TryDecode(State()) == TryDecode(old(State()))
        decreases |recvBuf|
      {
        if phase == ResponderDone || phase == ResponderFailed {
          return None;
        }
        var f := Frame.Decode(recvBuf, MAX_MESSAGE);
        if f.Incomplete? {
          if |recvBuf| > MAX_MESSAGE + MAX_PREFIX {
            phase := ResponderFailed;
            return Some(MessageTooLarge(|recvBuf|));
          }
          return None;
        } else if f.TooLarge? {
          phase := ResponderFailed;
          return Some(FrameTooLarge(f.len));
        } else if f.Error? {
          phase := ResponderFailed;
          return Some(Malformed(HP.VarintFault(f.error)));
        }
        Frame.DecodeExact(recvBuf, MAX_MESSAGE);
        var msg := HP.Decode(f.payload);
        if msg.Err? {
          phase := ResponderFailed;
          return Some(Malformed(msg.error));
        }
        recvBuf := recvBuf[f.consumed..];
        error := DispatchMessage(msg.value);
        if error.Some? {
          return;
        }
      }
    }

    method DispatchMessage(msg: HP.Message) returns (error: Option<DcutrError>)
      modifies this
      ensures Step(State(), error) == Dispatch(old(State()), msg)
    {
      if phase == AwaitingConnect && msg.kind == HP.Connect {
        outbound := outbound + connectReply;
        connectReply := [];
        events := events + [ConnectReceived(DecodeAddrs(msg.obsAddrs), msg.obsAddrs)];
        phase := AwaitingSync;
        error := None;
      } else if phase == AwaitingSync && msg.kind == HP.Sync {
        events := events + [SyncReceived];
        phase := ResponderDone;
        error := None;
      } else {
        error := Some(UnexpectedInResponder(msg.kind, phase));
        phase := ResponderFailed;
      }
    }

    method PollOutput() returns (output: Option<ResponderOutput>)
      modifies this
      ensures ResponderPoll(State(), output) == ResponderPollOutput(old(State()))
    {
      var bytes := outbound;
      outbound := [];
      if bytes != [] {
        return Some(ROutbound(bytes));
      }
      if events == [] {
        return None;
      }
      output := Some(REvent(events[0]));
      events := events[1..];
    }

    /** Bytes behind SYNC are handed over once, and only after completion. */
    method TakeTrailingData() returns (data: Option<seq<Byte>>)
      modifies this
      ensures data == if old(phase) == ResponderDone then Some(old(recvBuf)) else None
      ensures State() == if data.Some? then old(State()).(recvBuf := []) else old(State())
    {
      if phase != ResponderDone {
        return None;
      }
      data := Some(recvBuf);
      recvBuf := [];
    }
  }

  class DcutrInitiator {
    var outbound: seq<Byte>
    var recvBuf: seq<Byte>
    var phase: InitiatorPhase
    var outcome: Option<DialNow>
    var emittedOutcome: bool
    var pendingError: Option<DcutrError>

    function State(): Initiator
      reads this
    {
      Initiator(outbound, recvBuf, phase, outcome, emittedOutcome, pendingError)
    }

    constructor (own: seq<M.Addr>)
      requires forall a | a in own :: M.ValidAddr(a)
      ensures State() == NewInitiator(own)
    {
      recvBuf, outcome, emittedOutcome := [], None, false;
      var frame := CheckedFrame(ConnectPayload(own));
      if frame.Ok? {
        outbound, phase, pendingError := frame.value, Pending, None;
      } else {
        outbound, phase, pendingError := [], InitiatorDone, Some(frame.error);
      }
    }

    method HandleInput(input: InitiatorInput) returns (error: Option<DcutrError>)
      modifies this
      ensures IStep(State(), error) == InitiatorHandle(old(State()), input)
    {
      if pendingError.Some? {
        error := pendingError;
        pendingError := None;
        return;
      }
      match input
      case IFlush => error := None;
      case IData(bytes, rttMs) =>
        if phase != AwaitingConnectReply {
          return None;
        }
        recvBuf := recvBuf + bytes;
        error := DecodeReply(rttMs);
      case IRemoteWriteClosed => error := None;
      case ISendSync =>
        if phase != ReadyToSync {
          return Some(CannotSync(phase));
        }
        var frame := CheckedFrame(SYNC_PAYLOAD);
        if frame.Err? {
          return Some(frame.error);
        }
        outbound := outbound + frame.value;
        phase := SyncPending;
        error := None;
    }

    method Abort(e: DcutrError) returns (error: Option<DcutrError>)
      modifies this
      ensures IStep(State(), error) == FailReply(old(State()), e)
    {
      phase, recvBuf := InitiatorDone, [];
      return Some(e);
    }

    method DecodeReply(rttMs: nat) returns (error: Option<DcutrError>)
      modifies this
      ensures IStep(State(), error) == TryDecodeReply(old(State()), rttMs)
    {
      hide HP.Decode, Frame.Decode;
      if phase != AwaitingConnectReply {
        return None;
      }
      var f := Frame.Decode(recvBuf, MAX_MESSAGE);
      if f.Incomplete? {
        if |recvBuf| > MAX_MESSAGE + MAX_PREFIX {
          error := Abort(MessageTooLarge(|recvBuf|));
          return;
        }
        return None;
      } else if f.TooLarge? {
        error := Abort(FrameTooLarge(f.len));
        return;
      } else if f.Error? {
        error := Abort(Malformed(HP.VarintFault(f.error)));
        return;
      }
      Frame.DecodeExact(recvBuf, MAX_MESSAGE);
      var reply := HP.Decode(f.payload);
      if reply.Err? {
        error := Abort(Malformed(reply.error));
        return;
      }
      recvBuf := recvBuf[f.consumed..];
      if reply.value.kind != HP.Connect {
        error := Abort(UnexpectedReply(reply.value.kind));
        return;
      }
      phase := ReadyToSync;
      outcome := Some(DialNow(DecodeAddrs(reply.value.obsAddrs), reply.value.obsAddrs, rttMs));
      emittedOutcome := false;
      return None;
    }

    method PollOutput() returns (output: Option<InitiatorOutput>)
      modifies this
      ensures InitiatorPoll(State(), output) == InitiatorPollOutput(old(State()))
    {
      var bytes := outbound;
      outbound := [];
      if phase == Pending {
        phase := AwaitingConnectReply;
      } else if phase == SyncPending {
        phase := InitiatorDone;
      }
      if bytes != [] {
        return Some(IOutbound(bytes));
      }
      if !emittedOutcome && outcome.Some? {
        emittedOutcome := true;
        return Some(IOutcome(outcome.value));
      }
      return None;
    }

    /** Bytes behind the reply are handed over once, and never after a failed exchange. */
    method TakeTrailingData() returns (data: Option<seq<Byte>>)
      modifies this
      ensures data == if old(phase) == InitiatorDone && old(outcome).Some? then Some(old(recvBuf)) else None
      ensures State() == if data.Some? then old(State()).(recvBuf := []) else old(State())
    {
      if phase != InitiatorDone || outcome.None? {
        return None;
      }
      data := Some(recvBuf);
      recvBuf := [];
    }
  }
}
