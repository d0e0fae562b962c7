/**
 The hole-punch exchange gets done: every step of `DcutrExchange` that changes anything makes
 measurable progress, so only boundedly many do, and when none is left the exchange is
 complete (crates/dcutr/src/lib.rs).
 */
module DcutrProgress {
  import opened Bytes
  import opened Dcutr
  import opened X = DcutrExchange
  import Frame
  import M = Multiaddr

  /** Bytes written and read, events seen, the dial and the SYNC. */
  function Progress(s: Sys): nat {
    |s.wireR| + s.readR + |s.wireI| + s.readI + |s.seen|
    + (if s.dialled.Some? then 1 else 0) + (if s.syncFed then 1 else 0)
  }

  /** Each byte is written once and read once; two events, one dial, one SYNC. */
  function Total(addrsI: seq<M.Addr>, addrsR: seq<M.Addr>): nat
    requires Fits(addrsI) && Fits(addrsR)
  {
    2 * (|ConnectFrame(addrsI)| + |SyncFrame()|) + 2 * |ConnectFrame(addrsR)| + 4
  }

  lemma ProgressBounded(s: Sys, addrsI: seq<M.Addr>, addrsR: seq<M.Addr>)
    requires Fits(addrsI) && Fits(addrsR) && Inv(s, addrsI, addrsR)
    ensures Progress(s) <= Total(addrsI, addrsR)
  {
    WireShape(s, addrsI, addrsR);
    ReplyShape(s, addrsI, addrsR);
    InvAgreement(s, addrsI, addrsR);
    InvReads(s, addrsI, addrsR);
    hide Inv, ConnectFrame, SyncFrame;
  }

  lemma InvReads(s: Sys, addrsI: seq<M.Addr>, addrsR: seq<M.Addr>)
    requires Fits(addrsI) && Fits(addrsR) && Inv(s, addrsI, addrsR)
    ensures s.readR <= |s.wireR| && s.readI <= |s.wireI|
  {
    hide ConnectPayload, Frame.Encode, EncodeAddrs;
  }

  // ---- a step either changes nothing or makes progress ----

  lemma PollInitiatorAdvances(s: Sys, addrsI: seq<M.Addr>, addrsR: seq<M.Addr>)
    requires Fits(addrsI) && Fits(addrsR) && Inv(s, addrsI, addrsR)
    ensures var t := Next(s, PollInitiator); t == s || Progress(t) > Progress(s)
    ensures Next(s, PollInitiator) == s <==> InitiatorPollOutput(s.i).output.None?
  {
    hide ConnectPayload, Frame.Encode, EncodeAddrs, ResponderInv;
    FrameNonEmpty(addrsI);
    SyncNonEmpty();
  }

  lemma PollResponderAdvances(s: Sys)
    ensures var t := Next(s, PollResponder); t == s || Progress(t) > Progress(s)
    ensures Next(s, PollResponder) == s <==> ResponderPollOutput(s.r).output.None?
  {
  }

  /** Between inputs a responder has decoded all it can. */
  lemma ResponderStalled(s: Sys, addrsI: seq<M.Addr>, addrsR: seq<M.Addr>)
    requires Fits(addrsI) && Fits(addrsR) && Inv(s, addrsI, addrsR)
    ensures TryDecode(s.r) == Step(s.r, None) && s.r.pendingError.None?
  {
    hide ConnectPayload, Frame.Encode, EncodeAddrs, InitiatorInv, ConnectFrame, TryDecode;
    WireShape(s, addrsI, addrsR);
    var connect, sync := ConnectFrame(addrsI), SyncFrame();
    if s.r.phase == AwaitingConnect {
      assert s.r.recvBuf == connect[..s.readR];
      ResponderWaits(s.r, addrsI, s.readR);
    } else if s.r.phase == AwaitingSync {
      assert s.r.recvBuf == sync[..s.readR - |connect|];
      ResponderReadsSync(s.r, s.readR - |connect|);
    } else {
      DoneStays(s.r);
    }
  }

  lemma DoneStays(r: Responder)
    requires Over(r)
    ensures TryDecode(r) == Step(r, None)
  {
  }

  lemma DeliverToResponderAdvances(s: Sys, n: nat, addrsI: seq<M.Addr>, addrsR: seq<M.Addr>)
    requires Fits(addrsI) && Fits(addrsR) && Inv(s, addrsI, addrsR) && Enabled(s, DeliverToResponder(n))
    ensures var t := Next(s, DeliverToResponder(n)); t == s || Progress(t) > Progress(s)
    ensures Next(s, DeliverToResponder(n)) == s <==> n == 0
  {
    hide Inv, TryDecode;
    if n == 0 {
      ResponderStalled(s, addrsI, addrsR);
      assert s.wireR[s.readR..s.readR] == [];
      assert s.r.recvBuf + [] == s.r.recvBuf;
      assert Received(s.r, []) == s.r;
    }
  }

  lemma DeliverToInitiatorAdvances(s: Sys, n: nat, rttMs: nat, addrsI: seq<M.Addr>, addrsR: seq<M.Addr>)
    requires Fits(addrsI) && Fits(addrsR) && Inv(s, addrsI, addrsR) && Enabled(s, DeliverToInitiator(n, rttMs))
    ensures var t := Next(s, DeliverToInitiator(n, rttMs)); t == s || Progress(t) > Progress(s)
    ensures Next(s, DeliverToInitiator(n, rttMs)) == s <==> n == 0
  {
    hide Inv, TryDecodeReply;
    if n == 0 {
      InitiatorStalled(s, rttMs, addrsI, addrsR);
      assert s.wireI[s.readI..s.readI] == [];
      assert s.i.recvBuf + [] == s.i.recvBuf;
      assert s.i.(recvBuf := s.i.recvBuf) == s.i;
    }
  }

  lemma InitiatorStalled(s: Sys, rttMs: nat, addrsI: seq<M.Addr>, addrsR: seq<M.Addr>)
    requires Fits(addrsI) && Fits(addrsR) && Inv(s, addrsI, addrsR)
    ensures TryDecodeReply(s.i, rttMs) == IStep(s.i, None) && s.i.pendingError.None?
  {
    hide ConnectPayload, Frame.Encode, EncodeAddrs, ResponderInv, ConnectFrame, TryDecodeReply;
    ReplyShape(s, addrsI, addrsR);
    if s.i.phase == AwaitingConnectReply {
      assert s.i.recvBuf == ConnectFrame(addrsR)[..s.readI];
      InitiatorReads(s.i, addrsR, s.readI, rttMs);
    } else {
      NoReplyAwaited(s.i, rttMs);
    }
  }

  lemma NoReplyAwaited(i: Initiator, rttMs: nat)
    requires i.phase != AwaitingConnectReply
    ensures TryDecodeReply(i, rttMs) == IStep(i, None)
  {
  }

  lemma CloseChangesNothing(s: Sys, addrsI: seq<M.Addr>, addrsR: seq<M.Addr>)
    requires Fits(addrsI) && Fits(addrsR) && Inv(s, addrsI, addrsR)
    ensures Next(s, CloseToResponder) == s && Next(s, CloseToInitiator) == s
  {
    hide Inv, TryDecode;
    ResponderStalled(s, addrsI, addrsR);
    InitiatorStalled(s, 0, addrsI, addrsR);
  }

  lemma FeedAdvances(s: Sys)
    requires Enabled(s, FeedSync)
    ensures Next(s, FeedSync) != s && Progress(Next(s, FeedSync)) > Progress(s)
  {
  }

  lemma StepAdvances(s: Sys, a: Action, addrsI: seq<M.Addr>, addrsR: seq<M.Addr>)
    requires Fits(addrsI) && Fits(addrsR) && Inv(s, addrsI, addrsR) && Enabled(s, a)
    ensures Next(s, a) == s || Progress(Next(s, a)) > Progress(s)
  {
    hide Next, Inv, Progress;
    match a
    case PollInitiator => PollInitiatorAdvances(s, addrsI, addrsR);
    case PollResponder => PollResponderAdvances(s);
    case DeliverToResponder(n) => DeliverToResponderAdvances(s, n, addrsI, addrsR);
    case DeliverToInitiator(n, rtt) => DeliverToInitiatorAdvances(s, n, rtt, addrsI, addrsR);
    case FeedSync => FeedAdvances(s);
    case CloseToResponder => CloseChangesNothing(s, addrsI, addrsR);
    case CloseToInitiator => CloseChangesNothing(s, addrsI, addrsR);
  }

  // ---- quiescence ----

  /** Some step would change something. */
  ghost predicate CanAdvance(s: Sys) {
    exists a :: Enabled(s, a) && Next(s, a) != s
  }

  /** The stopping condition of `DcutrExchange` is exactly that no step would change anything. */
  lemma QuiescentIff(s: Sys, addrsI: seq<M.Addr>, addrsR: seq<M.Addr>)
    requires Fits(addrsI) && Fits(addrsR) && Inv(s, addrsI, addrsR)
    ensures Quiescent(s) <==> !CanAdvance(s)
  {
    hide Next, Inv;
    InvReads(s, addrsI, addrsR);
    PollInitiatorAdvances(s, addrsI, addrsR);
    PollInitiatorKeeps(s, addrsI, addrsR);
    PollResponderAdvances(s);
    CloseChangesNothing(s, addrsI, addrsR);
    if Quiescent(s) {
      forall a | Enabled(s, a)
        ensures Next(s, a) == s
      {
        match a
        case DeliverToResponder(n) => DeliverToResponderAdvances(s, n, addrsI, addrsR);
        case DeliverToInitiator(n, rtt) => DeliverToInitiatorAdvances(s, n, rtt, addrsI, addrsR);
        case _ =>
      }
    } else if s.readR < |s.wireR| {
      DeliverToResponderAdvances(s, |s.wireR| - s.readR, addrsI, addrsR);
      assert Enabled(s, DeliverToResponder(|s.wireR| - s.readR));
    } else if s.readI < |s.wireI| {
      DeliverToInitiatorAdvances(s, |s.wireI| - s.readI, 0, addrsI, addrsR);
      assert Enabled(s, DeliverToInitiator(|s.wireI| - s.readI, 0));
    } else if ResponderPollOutput(s.r).output.Some? {
      assert Enabled(s, PollResponder);
    } else if InitiatorPollOutput(s.i).output.Some? {
      assert Enabled(s, PollInitiator);
    } else {
      FeedAdvances(s);
      assert Enabled(s, FeedSync);
    }
  }

  lemma PollInitiatorKeeps(s: Sys, addrsI: seq<M.Addr>, addrsR: seq<M.Addr>)
    requires Fits(addrsI) && Fits(addrsR) && Inv(s, addrsI, addrsR)
    ensures InitiatorPollOutput(s.i).output.None? ==> InitiatorPollOutput(s.i).state == s.i
  {
    hide ConnectPayload, Frame.Encode, EncodeAddrs, ResponderInv;
    FrameNonEmpty(addrsI);
    SyncNonEmpty();
  }

  // ---- runs ----

  /** How many steps of the run changed something. */
  function Advances(s: Sys, actions: seq<Action>): nat
    requires Run(s, actions).Some?
    decreases |actions|
  {
    if actions == [] then 0
    else (if Next(s, actions[0]) != s then 1 else 0) + Advances(Next(s, actions[0]), actions[1..])
  }

  lemma {:induction false} AdvancesBounded(s: Sys, actions: seq<Action>, addrsI: seq<M.Addr>, addrsR: seq<M.Addr>)
    requires Fits(addrsI) && Fits(addrsR) && Inv(s, addrsI, addrsR) && Run(s, actions).Some?
    ensures Progress(s) + Advances(s, actions) <= Total(addrsI, addrsR)
    decreases |actions|
  {
    hide Next, Inv, Enabled, Progress, Total;
    if actions == [] {
      ProgressBounded(s, addrsI, addrsR);
    } else {
      StepAdvances(s, actions[0], addrsI, addrsR);
      NextInv(s, actions[0], addrsI, addrsR);
      AdvancesBounded(Next(s, actions[0]), actions[1..], addrsI, addrsR);
    }
  }

  /**
   The exchange completes: in every run at most `Total` steps change anything, whatever the
   interleaving and the cuts, and a run after which no step would is complete.
   */
  lemma ExchangeCompletes(addrsI: seq<M.Addr>, addrsR: seq<M.Addr>, actions: seq<Action>)
    requires Fits(addrsI) && Fits(addrsR) && Run(Init(addrsI, addrsR), actions).Some?
    ensures Advances(Init(addrsI, addrsR), actions) <= Total(addrsI, addrsR)
    ensures var s := Run(Init(addrsI, addrsR), actions).value;
            !CanAdvance(s) ==>
              && s.i.phase == InitiatorDone && s.r.phase == ResponderDone
              && s.seen == [ConnectReceived(addrsI, EncodeAddrs(addrsI)), SyncReceived]
              && s.dialled.Some? && s.dialled.value.remoteAddrs == addrsR
  {
    hide Next, Inv, Enabled, Progress, Total, Quiescent, CanAdvance;
    InitInv(addrsI, addrsR);
    AdvancesBounded(Init(addrsI, addrsR), actions, addrsI, addrsR);
    RunInv(Init(addrsI, addrsR), actions, addrsI, addrsR);
    var s := Run(Init(addrsI, addrsR), actions).value;
    QuiescentIff(s, addrsI, addrsR);
    if !CanAdvance(s) {
      QuiescentIsComplete(addrsI, addrsR, actions);
    }
  }
}
