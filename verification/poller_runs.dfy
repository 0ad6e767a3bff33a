/** Sequences of calls into the input-capture state machine, as the single
    dispatcher thread delivers them: UI requests, device selection and timer
    firings. Over any such run, a completion handler fires at most once per
    time it was handed to StartPolling, and always after the poller was
    cleared. */
module PollerRuns {
  import opened Common
  import opened InputPoller

  datatype Op =
    | Start(binding: BindingId, progress: Option<Handler>, completed: Option<Handler>, oracle: AcquireOracle, now: int)
    | Stop(binding: BindingId)
    | TimerFires(sample: Option<JoystickState>, now: int)
    | SelectDevice(guid: Guid)

  predicate WellFormedOp(op: Op) {
    op.TimerFires? && op.sample.Some? ==> |op.sample.value.povs| <= 4
  }

  predicate WellFormedOps(ops: seq<Op>) {
    forall i :: 0 <= i < |ops| ==> WellFormedOp(ops[i])
  }

  /** One call. The timer only fires while it is enabled. */
  function Step(p: Poller, op: Op): (Poller, seq<Event>)
    requires WellFormedOp(op)
  {
    match op
    case Start(b, progress, completed, oracle, now) => StartPolling(p, b, progress, completed, oracle, now)
    case Stop(b) => StopPolling(p, b)
    case TimerFires(sample, now) => if p.timerEnabled then Tick(p, sample, now) else (p, [])
    case SelectDevice(g) => (p.(inputDeviceGuid := g), [])
  }

  /** The final poller and the concatenated handler invocations of a run. */
  function Run(p: Poller, ops: seq<Op>): (Poller, seq<Event>)
    requires WellFormedOps(ops)
    decreases |ops|
  {
    if |ops| == 0 then (p, [])
    else
      var (q, e) := Step(p, ops[0]);
      var (q2, e2) := Run(q, ops[1..]);
      (q2, e + e2)
  }

  /** How often handler `h` is invoked as a completion handler in `events`. */
  function Completions(events: seq<Event>, h: Handler): nat {
    if |events| == 0 then 0
    else (if events[0].Completed? && events[0].handler == h then 1 else 0) + Completions(events[1..], h)
  }

  lemma {:induction false} CompletionsAppend(a: seq<Event>, b: seq<Event>, h: Handler)
    ensures Completions(a + b, h) == Completions(a, h) + Completions(b, h)
    decreases |a|
  {
    if |a| == 0 {
      assert a + b == b;
    } else {
      assert (a + b)[1..] == a[1..] + b;
      CompletionsAppend(a[1..], b, h);
    }
  }

  function Indicator(c: bool): nat {
    if c then 1 else 0
  }

  /** The ways `h` can still come to be invoked as a completion handler: being
      stored now, or being handed to a later StartPolling. */
  function Registrations(p: Poller, ops: seq<Op>, h: Handler): nat
    decreases |ops|
  {
    if |ops| == 0 then Indicator(p.completedHandler == Some(h))
    else Indicator(ops[0].Start? && ops[0].completed == Some(h)) + Registrations(p, ops[1..], h)
  }

  /** One step invokes `h` at most as often as it loses a registration of `h`. */
  lemma StepConsumesRegistration(p: Poller, op: Op, h: Handler)
    requires WellFormedOp(op)
    ensures var (q, e) := Step(p, op);
            Completions(e, h) + Indicator(q.completedHandler == Some(h))
              <= Indicator(p.completedHandler == Some(h)) + Indicator(op.Start? && op.completed == Some(h))
  {
    var (q, e) := Step(p, op);
    match op
    case Start(b, progress, completed, oracle, now) =>
      if |e| == 1 {
        assert e[0] in e;
        assert e[1..] == [];
      }
    case Stop(b) =>
      if |e| == 1 {
        assert e[1..] == [];
      }
    case TimerFires(sample, now) =>
      if |e| == 1 {
        assert e[0] in e;
        assert e[1..] == [];
      }
    case SelectDevice(g) =>
  }

  lemma {:induction false} RegistrationsOfStored(p: Poller, q: Poller, ops: seq<Op>, h: Handler)
    ensures Registrations(q, ops, h) + Indicator(p.completedHandler == Some(h))
              == Registrations(p, ops, h) + Indicator(q.completedHandler == Some(h))
    decreases |ops|
  {
    if |ops| > 0 {
      RegistrationsOfStored(p, q, ops[1..], h);
    }
  }

  /** Over a run, each handler is invoked as a completion handler at most as
      often as it was registered. */
  lemma {:induction false} CompletionsBoundedByRegistrations(p: Poller, ops: seq<Op>, h: Handler)
    requires WellFormedOps(ops)
    ensures Completions(Run(p, ops).1, h) <= Registrations(p, ops, h)
    decreases |ops|
  {
    if |ops| > 0 {
      var (q, e) := Step(p, ops[0]);
      var (q2, e2) := Run(q, ops[1..]);
      StepConsumesRegistration(p, ops[0], h);
      CompletionsBoundedByRegistrations(q, ops[1..], h);
      CompletionsAppend(e, e2, h);
      RegistrationsOfStored(p, q, ops[1..], h);
    }
  }

  /** Completion fires at most once: if every handler is registered at most
      once over the run (a fresh handler per StartPolling call, as the
      settings view's lambdas are), no handler completes twice. */
  lemma CompletionAtMostOnce(p: Poller, ops: seq<Op>, h: Handler)
    requires WellFormedOps(ops)
    requires Registrations(p, ops, h) <= 1
    ensures Completions(Run(p, ops).1, h) <= 1
  {
    CompletionsBoundedByRegistrations(p, ops, h);
  }

  /** What a completion handler observes during one call: a poller with no
      target, no handlers and the timer stopped. For a stop or a timer firing
      it is exactly the state the call returns; for a start it is the old
      state with its session cleared (and the device possibly released). */
  lemma CompletionSeesClearedState(p: Poller, op: Op)
    requires WellFormedOp(op)
    ensures var (q, events) := Step(p, op);
            forall e :: e in events && e.Completed? ==>
              && e.seen.target.None? && e.seen.progressHandler.None? && e.seen.completedHandler.None?
              && !e.seen.timerEnabled
              && (op.Stop? || op.TimerFires? ==> e.seen == q)
              && (op.Start? ==> e.seen == Cleared(p).(device := e.seen.device))
  {
  }

  /** Every completion handler of a run observes a poller with no target, no
      handlers and the timer stopped, and every progress report carries a
      positive remaining time. */
  lemma {:induction false} HandlersSeeClearedPoller(p: Poller, ops: seq<Op>)
    requires WellFormedOps(ops)
    ensures forall e :: e in Run(p, ops).1 && e.Completed? ==>
              e.seen.target.None? && e.seen.progressHandler.None? && e.seen.completedHandler.None?
    ensures forall e :: e in Run(p, ops).1 && e.Progress? ==> e.remaining > 0
    decreases |ops|
  {
    if |ops| > 0 {
      CompletionSeesClearedState(p, ops[0]);
      HandlersSeeClearedPoller(Step(p, ops[0]).0, ops[1..]);
    }
  }

  /** The invariant holds in every state a run reaches. */
  lemma {:induction false} RunPreservesInv(p: Poller, ops: seq<Op>)
    requires WellFormedOps(ops)
    requires Inv(p)
    ensures Inv(Run(p, ops).0)
    decreases |ops|
  {
    if |ops| > 0 {
      match ops[0] {
        case Start(b, progress, completed, oracle, now) => StartPreservesInv(p, b, progress, completed, oracle, now);
        case Stop(b) => StopPreservesInv(p, b);
        case TimerFires(sample, now) => if p.timerEnabled { TickPreservesInv(p, sample, now); }
        case SelectDevice(g) =>
      }
      RunPreservesInv(Step(p, ops[0]).0, ops[1..]);
    }
  }

  /** With no controller attached the catalog holds only "<none>", the
      selection stays Guid.Empty, and creating that device fails: a capture
      never starts and its completion handler is never invoked. */
  lemma NoHardwareScenario(b: BindingId, progress: Option<Handler>, completed: Handler, now: int)
    ensures var p := Create(Some([]));
            var (q, events) := Step(p, Start(b, progress, Some(completed), AcquireOracle(None, false), now));
            p.inputDeviceNames == map[EmptyGuid := NoDeviceName] && !IsPolling(q, b) && events == []
  {
  }

  /** A button pressed on the very first tick completes the capture with that
      button and without any progress report. */
  lemma FirstTickButtonScenario(p: Poller, buttons: seq<bool>, now: int)
    requires Inv(p) && p.timerEnabled && p.directInput && p.completedHandler.Some?
    requires |buttons| > 0 && buttons[0]
    ensures var (q, events) := Step(p, TimerFires(Some(JoystickState([-1, -1, -1, -1], buttons)), now));
            Idle(q) && events == [Completed(p.completedHandler.value, Some(BindingValue(Button, 0)), q)]
  {
    assert Detect(JoystickState([-1, -1, -1, -1], buttons)) == Some(BindingValue(Button, 0));
  }
}
