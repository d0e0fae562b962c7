/**
 The edge-triggered wakeup between the driver thread, the one-slot channel, the doorbell
 thread and a consumer that drains until empty (crates/ffi-core/src/driver.rs,
 crates/ffi-core/src/endpoint.rs).

 Every region held under the mutex, every channel operation and every callback return is
 one step, so a run is any interleaving of the threads.
 */
module Doorbell {
  import opened Bytes
  import opened Carry
  import Q = EventQueue

  /** Where the driver thread is; `Ringing` has released the lock and still has to ring. */
  datatype Driver = Running | Ringing | Failing(failure: Event) | RingingLast | Exited

  datatype Bell = Parked | Calling(again: bool) | Gone

  datatype Sys = Sys(
    q: Q.Queue,
    running: bool,
    driver: Driver,
    token: bool,
    bell: Bell,
    notified: bool,
    draining: bool)

  datatype Step =
    | PumpOk(swarm: seq<Event>, nat_: seq<Event>, rest: seq<Event>)
    | PumpErr(collected: seq<Event>, failure: Event)
    | PumpStopped
    | Report
    | Ring
    | BellTake
    | BellOk
    | BellPanic
    | BellExit
    | ConsumerStart
    | ConsumerDrain(limit: nat)
    | Connect(id: nat)
    | Cancel(id: nat)
    | Stop

  const START := Sys(Q.EMPTY, true, Running, false, Parked, false, false)

  predicate Enabled(s: Sys, step: Step) {
    match step
    case PumpOk(_, _, _) => s.driver.Running? && s.running
    case PumpErr(_, _) => s.driver.Running? && s.running
    case PumpStopped => s.driver.Running? && !s.running
    case Report => s.driver.Failing?
    case Ring => s.driver.Ringing? || s.driver.RingingLast?
    case BellTake => s.bell.Parked? && s.token
    case BellOk => s.bell.Calling?
    case BellPanic => s.bell.Calling?
    case BellExit => s.bell.Parked? && !s.token && s.driver.Exited?
    case ConsumerStart => s.notified && !s.draining
    case ConsumerDrain(limit) => s.draining && limit > 0
    case Connect(_) => s.running
    case Cancel(_) => s.running
    case Stop => true
  }

  function Do(s: Sys, step: Step): Sys
    requires Enabled(s, step)
  {
    match step
    case PumpOk(swarm, nat_, rest) =>
      var q := Q.Pump(s.q, swarm, nat_, rest);
      s.(q := q, driver := if s.q.list == [] && q.list != [] then Ringing else Running)
    case PumpErr(collected, failure) => s.(q := Q.Ingest(s.q, collected), driver := Failing(failure))
    case PumpStopped => s.(driver := Exited)
    case Report =>
      if s.running then
        s.(q := Q.Ingest(s.q, [s.driver.failure]), running := false,
           driver := if s.q.list == [] then RingingLast else Exited)
      else s.(driver := Exited)
    case Ring => s.(token := true, driver := if s.driver.Ringing? then Running else Exited)
    case BellTake => s.(token := false, bell := Calling(false))
    case BellOk => s.(bell := Parked, notified := true)
    case BellPanic => s.(bell := if s.bell.again then Parked else Calling(true))
    case BellExit => s.(bell := Gone)
    case ConsumerStart => s.(notified := false, draining := true)
    case ConsumerDrain(limit) =>
      var d := Q.Drain(s.q, limit);
      s.(q := d.queue, draining := d.events != [])
    case Connect(id) => s.(q := Q.Connect(s.q, id))
    case Cancel(id) => s.(q := Q.Cancel(s.q, id))
    case Stop => s.(running := false)
  }

  predicate IsRun(s: Sys, steps: seq<Step>)
    decreases |steps|
  {
    steps == [] || (Enabled(s, steps[0]) && IsRun(Do(s, steps[0]), steps[1..]))
  }

  function Run(s: Sys, steps: seq<Step>): Sys
    requires IsRun(s, steps)
    decreases |steps|
  {
    if steps == [] then s else Run(Do(s, steps[0]), steps[1..])
  }

  // ---- a wakeup is on its way ----

  predicate Awake(s: Sys) {
    s.driver.Ringing? || s.driver.RingingLast? || s.token || s.bell.Calling? || s.notified || s.draining
  }

  /** No lost wakeup. */
  predicate Covered(s: Sys) {
    s.q.list == [] || Awake(s)
  }

  /** The two steps that can lose a wakeup, and when they do. */
  predicate Careless(s: Sys, step: Step) {
    || (step.PumpErr? && step.collected != [] && s.q.list == [] && !Awake(s))
    || (step.BellPanic? && s.bell == Calling(true) && s.q.list != [] && !s.driver.Ringing? && !s.driver.RingingLast?
        && !s.token && !s.notified && !s.draining)
  }

  lemma PushAllEmpty(l: seq<Event>, events: seq<Event>)
    ensures Q.PushAll(l, events) == [] <==> l == [] && events == []
    decreases |events|
  {
    if events != [] {
      PushNonEmpty(l, events[0]);
      PushAllEmpty(PushList(l, events[0]), events[1..]);
    }
  }

  lemma PushNonEmpty(l: seq<Event>, e: Event)
    ensures PushList(l, e) != []
  {
    hide Victim;
  }

  lemma PumpKeeps(q: Q.Queue, swarm: seq<Event>, nat_: seq<Event>, rest: seq<Event>)
    requires q.list != []
    ensures Q.Pump(q, swarm, nat_, rest).list != []
  {
    hide Q.PushAll, Q.Drops, Q.RetiredBy, Suppress, SatAdd, Q.Sat;
    PushAllEmpty(q.list, swarm);
    var a := Q.PushAll(q.list, swarm);
    var live := Q.DropCancelled(nat_, q.cancelled);
    PushAllEmpty(a, live);
    PushAllEmpty(Q.PushAll(a, live), rest);
  }

  /** A step keeps the invariant exactly when it is not one of the careless ones. */
  lemma StepCovered(s: Sys, step: Step)
    requires Enabled(s, step) && Covered(s)
    ensures Covered(Do(s, step)) <==> !Careless(s, step)
  {
    hide Q.Pump, Q.Ingest, Q.Cancel, Q.Drain, Q.Connect;
    match step
    case PumpErr(collected, _) => IngestEmpty(s.q, collected);
    case Report => IngestEmpty(s.q, [s.driver.failure]);
    case ConsumerDrain(limit) => DrainEmpty(s.q, limit);
    case Connect(id) => ConnectList(s.q, id);
    case Cancel(id) => CancelEmpty(s.q, id);
    case _ =>
  }

  lemma IngestEmpty(q: Q.Queue, events: seq<Event>)
    ensures Q.Ingest(q, events).list == [] <==> q.list == [] && events == []
  {
    hide Q.PushAll, Q.Drops, Q.RetiredBy, SatAdd, Q.Sat;
    PushAllEmpty(q.list, events);
  }

  lemma DrainEmpty(q: Q.Queue, limit: nat)
    requires limit > 0
    ensures Q.Drain(q, limit).events == [] ==> Q.Drain(q, limit).queue.list == []
    ensures q.list == [] ==> Q.Drain(q, limit).queue.list == []
    ensures Q.Drain(q, limit).events != [] ==> Pressure(Q.Drain(q, limit).queue) < Pressure(q)
    ensures Pressure(Q.Drain(q, limit).queue) <= Pressure(q)
  {
    hide Q.TerminalIds, SatAdd;
    Q.EmptyDrainMeansEmpty(q, limit);
  }

  lemma ConnectList(q: Q.Queue, id: nat)
    ensures Q.Connect(q, id).list == q.list
  {
  }

  lemma CancelEmpty(q: Q.Queue, id: nat)
    ensures q.list == [] ==> Q.Cancel(q, id).list == []
  {
  }

  /** The channel only disconnects once the driver is done ringing. */
  predicate Inv(s: Sys) {
    Covered(s) && (s.bell.Gone? ==> s.driver.Exited? && !s.token)
  }

  /** Every careless step is avoided along the run. */
  predicate Careful(s: Sys, steps: seq<Step>)
    requires IsRun(s, steps)
    decreases |steps|
  {
    steps == [] || (!Careless(s, steps[0]) && Careful(Do(s, steps[0]), steps[1..]))
  }

  lemma {:induction false} RunInv(s: Sys, steps: seq<Step>)
    requires IsRun(s, steps) && Inv(s) && Careful(s, steps)
    ensures Inv(Run(s, steps))
    decreases |steps|
  {
    hide Covered, Careless;
    if steps != [] {
      StepCovered(s, steps[0]);
      BellStays(s, steps[0]);
      hide Enabled, Do;
      RunInv(Do(s, steps[0]), steps[1..]);
    }
  }

  lemma BellStays(s: Sys, step: Step)
    requires Enabled(s, step) && (s.bell.Gone? ==> s.driver.Exited? && !s.token)
    ensures Do(s, step).bell.Gone? ==> Do(s, step).driver.Exited? && !Do(s, step).token
  {
    hide Q.Pump, Q.Ingest, Q.Cancel, Q.Drain, Q.Connect;
  }

  /**
   No lost wakeup, over every interleaving: as long as no driver error strikes just after
   events reached an empty carry and no callback panics twice in a row with nothing else
   under way, queued events always have a wakeup on its way; and at rest nothing is queued.
   */
  lemma NoLostWakeup(steps: seq<Step>)
    requires IsRun(START, steps) && Careful(START, steps)
    ensures var s := Run(START, steps);
            s.q.list != [] ==> Awake(s)
    ensures var s := Run(START, steps);
            s.bell.Gone? ==> s.driver.Exited? && !s.token
  {
    RunInv(START, steps);
  }

  // ---- the failing iteration, exactly ----

  /**
   A failing iteration and its report leave the consumer a wakeup if and only if one was
   already on its way or the iteration had collected nothing.
   */
  lemma FailureIsAnnouncedIff(s: Sys, collected: seq<Event>, failure: Event)
    requires Covered(s) && s.driver.Running? && s.running
    ensures IsRun(s, [PumpErr(collected, failure), Report])
    ensures Covered(Run(s, [PumpErr(collected, failure), Report])) <==> Awake(s) || collected == []
  {
    hide Q.Pump, Q.Ingest, Q.Cancel, Q.Drain, Q.Connect;
    var a := Do(s, PumpErr(collected, failure));
    IngestEmpty(s.q, collected);
    IngestEmpty(a.q, [failure]);
    assert [PumpErr(collected, failure), Report][1..] == [Report];
    assert [Report][1..] == [];
    assert IsRun(Do(a, Report), []);
    assert IsRun(a, [Report]);
  }

  /** An iteration that collects one event and then fails: two events queued, nobody told. */
  lemma LostWakeup(e: Event, failure: Event)
    ensures var steps := [PumpErr([e], failure), Report];
            IsRun(START, steps) && !Covered(Run(START, steps))
  {
    FailureIsAnnouncedIff(START, [e], failure);
  }

  /** One event, one ring, and a callback that panics at both attempts: the event stays, nobody is told. */
  lemma PanickedTwice(e: Event)
    ensures var steps := [PumpOk([e], [], []), Ring, BellTake, BellPanic, BellPanic];
            IsRun(START, steps) && Run(START, steps).q.list == [e] && !Covered(Run(START, steps))
  {
    hide Q.Pump, Q.Ingest, Q.Cancel, Q.Drain, Q.Connect, IsRun, Run;
    OneEvent(e);
    var s1 := Do(START, PumpOk([e], [], []));
    var s2 := Do(s1, Ring);
    CallbackPanics(s2);
    RunCons(s1, Ring, [BellTake, BellPanic, BellPanic]);
    assert [Ring] + [BellTake, BellPanic, BellPanic] == [Ring, BellTake, BellPanic, BellPanic];
    RunCons(START, PumpOk([e], [], []), [Ring, BellTake, BellPanic, BellPanic]);
    assert [PumpOk([e], [], [])] + [Ring, BellTake, BellPanic, BellPanic] == [PumpOk([e], [], []), Ring, BellTake, BellPanic, BellPanic];
  }

  /** Both attempts of one callback. */
  lemma CallbackPanics(s: Sys)
    requires s.bell.Parked? && s.token
    ensures IsRun(s, [BellTake, BellPanic, BellPanic])
    ensures Run(s, [BellTake, BellPanic, BellPanic]) == s.(token := false)
  {
    hide Q.Pump, Q.Ingest, Q.Cancel, Q.Drain, Q.Connect, Covered;
    var s1 := Do(s, BellTake);
    var s2 := Do(s1, BellPanic);
    RunCons(s2, BellPanic, []);
    RunCons(s1, BellPanic, [BellPanic]);
    RunCons(s, BellTake, [BellPanic, BellPanic]);
    hide Do, Enabled;
    assert [BellPanic] + [] == [BellPanic] && [BellPanic] + [BellPanic] == [BellPanic, BellPanic];
    assert [BellTake] + [BellPanic, BellPanic] == [BellTake, BellPanic, BellPanic];
  }

  lemma RunCons(s: Sys, step: Step, steps: seq<Step>)
    requires Enabled(s, step) && IsRun(Do(s, step), steps)
    ensures IsRun(s, [step] + steps) && Run(s, [step] + steps) == Run(Do(s, step), steps)
  {
    hide Do, Enabled;
    assert ([step] + steps)[1..] == steps;
  }

  lemma OneEvent(e: Event)
    ensures Q.Pump(Q.EMPTY, [e], [], []).list == [e]
  {
    assert [] + [e] == [e];
    assert [e][1..] == [];
    assert PushList([], e) == [e];
    assert Q.PushAll([], [e]) == Q.PushAll([e], []) == [e];
  }

  // ---- a lost wakeup stays lost ----

  predicate Lost(s: Sys) {
    s.q.list != [] && !Awake(s)
  }

  lemma StepLost(s: Sys, step: Step)
    requires Enabled(s, step) && Lost(s) && !step.Cancel?
    ensures Lost(Do(s, step))
  {
    hide Q.Pump, Q.Ingest, Q.Cancel, Q.Drain, Q.Connect;
    match step
    case PumpOk(swarm, nat_, rest) => PumpKeeps(s.q, swarm, nat_, rest);
    case PumpErr(collected, _) => IngestEmpty(s.q, collected);
    case Report => IngestEmpty(s.q, [s.driver.failure]);
    case Connect(id) => ConnectList(s.q, id);
    case _ =>
  }

  /** Nothing but a cancellation that empties the carry can repair a lost wakeup. */
  lemma {:induction false} LostStaysLost(s: Sys, steps: seq<Step>)
    requires IsRun(s, steps) && Lost(s) && forall step | step in steps :: !step.Cancel?
    ensures Lost(Run(s, steps))
    ensures forall step | step in steps :: !step.ConsumerDrain?
    decreases |steps|
  {
    hide Lost, Do;
    if steps != [] {
      assert steps[0] in steps;
      StepLost(s, steps[0]);
      NotDrained(s, steps[0]);
      LostStaysLost(Do(s, steps[0]), steps[1..]);
    }
  }

  lemma NotDrained(s: Sys, step: Step)
    requires Enabled(s, step) && Lost(s)
    ensures !step.ConsumerDrain?
  {
  }

  // ---- progress ----

  /** What is left to deliver. */
  function Pressure(q: Q.Queue): nat {
    |q.list| + if q.overflow.pending == 0 then 0 else 1
  }

  function Work(s: Sys): nat {
    (if s.driver.Ringing? || s.driver.RingingLast? then 6 else 0)
    + (if s.token then 5 else 0)
    + (if s.bell.Calling? then if s.bell.again then 3 else 4 else 0)
    + (if s.notified then 2 else 0)
    + (if s.draining then 1 else 0)
    + Pressure(s.q)
  }

  /** The steps of the wakeup itself, as opposed to new input. */
  predicate Helpful(step: Step) {
    step.Ring? || step.BellTake? || step.BellOk? || step.BellPanic? || step.ConsumerStart? || step.ConsumerDrain?
  }

  lemma HelpfulProgress(s: Sys, step: Step)
    requires Enabled(s, step) && Helpful(step)
    ensures Work(Do(s, step)) < Work(s)
  {
    hide Q.Drain, Pressure;
    if step.ConsumerDrain? {
      DrainEmpty(s.q, step.limit);
    }
  }

  /** Some helpful step can be taken as long as a wakeup is on its way. */
  lemma AwakeCanStep(s: Sys)
    requires Inv(s) && Awake(s)
    ensures exists step :: Helpful(step) && Enabled(s, step)
  {
    hide Q.Pump, Q.Ingest, Q.Cancel, Q.Drain, Q.Connect;
    var step :=
      if s.driver.Ringing? || s.driver.RingingLast? then Ring
      else if s.bell.Calling? then BellOk
      else if s.token then BellTake
      else if s.draining then ConsumerDrain(1)
      else ConsumerStart;
    assert Helpful(step) && Enabled(s, step);
  }

  /**
   Left to itself the wakeup always finishes: a run of helpful steps is no longer than the
   work outstanding, and if no helpful step is left the carry is empty.
   */
  lemma {:induction false} WakeupDelivers(s: Sys, steps: seq<Step>)
    requires IsRun(s, steps) && Inv(s) && Careful(s, steps)
    requires forall step | step in steps :: Helpful(step)
    ensures |steps| <= Work(s)
    ensures (forall step :: Helpful(step) ==> !Enabled(Run(s, steps), step)) ==> Run(s, steps).q.list == []
    decreases |steps|
  {
    RunInv(s, steps);
    hide Do, Enabled, Work, Helpful, Covered, Careless;
    if steps == [] {
      if Awake(s) {
        AwakeCanStep(s);
      }
      CoveredMeans(s);
    } else {
      assert steps[0] in steps;
      HelpfulProgress(s, steps[0]);
      StepCovered(s, steps[0]);
      BellStays(s, steps[0]);
      WakeupDelivers(Do(s, steps[0]), steps[1..]);
    }
  }

  lemma CoveredMeans(s: Sys)
    requires Covered(s)
    ensures !Awake(s) ==> s.q.list == []
  {
  }
}
