/** The input-capture state machine of the settings application
    (InputPoller.cs). It holds at most one capture session: a target binding
    plus a progress and a completion handler. Each timer tick samples the
    open device and ends the session on a detection, a read failure or
    after five seconds.

    The controller is an oracle: creating and acquiring a device, and reading
    its state, are inputs to the step functions. The clock is an integer in
    100-nanosecond ticks. Handlers are identifiers, and invoking one appends an
    event to the log a step returns. */
module InputPoller {
  import opened Common

  /** A capture target: the identity of one InputBinding object. */
  type BindingId = nat

  /** The identity of a progress or completion handler. */
  type Handler = nat

  /** TimeSpan ticks per second. */
  const TicksPerSecond := 10_000_000

  /** A capture gives up after five seconds without a detection. */
  const MaxDuration := 5 * TicksPerSecond

  /** The catalog's name for Guid.Empty. */
  const NoDeviceName := "<none>"

  /** One attached game controller as reported by enumeration. */
  datatype DeviceInstance = DeviceInstance(instanceGuid: Guid, instanceName: string)

  /** A joystick sample: the POV hat angles (-1 when centred) and the button states. */
  datatype JoystickState = JoystickState(povs: seq<int>, buttons: seq<bool>)

  /** What the device layer does when a capture asks for the selected device:
      `created` is None if creating or configuring a new device fails, and
      otherwise the instance GUID of the created device; `acquired` says
      whether Acquire succeeds. */
  datatype AcquireOracle = AcquireOracle(created: Option<Guid>, acquired: bool)

  datatype Poller = Poller(
    inputDeviceGuid: Guid,            // the selected device
    inputDeviceNames: map<Guid, string>,
    directInput: bool,                // DirectInput initialised successfully
    device: Option<Guid>,             // instance GUID of the open device, if any
    startTime: int,
    target: Option<BindingId>,
    progressHandler: Option<Handler>,
    completedHandler: Option<Handler>,
    timerEnabled: bool)

  /** A handler invocation. `seen` is the poller as the completion handler
      observes it when it runs. */
  datatype Event =
    | Progress(handler: Handler, remaining: int)
    | Completed(handler: Handler, result: Option<BindingValue>, seen: Poller)

  /** No session, no handlers, timer stopped. */
  predicate Idle(p: Poller) {
    p.target.None? && p.progressHandler.None? && p.completedHandler.None? && !p.timerEnabled
  }

  /** The facts every reachable poller satisfies. */
  predicate Inv(p: Poller) {
    && EmptyGuid in p.inputDeviceNames
    && (p.target.Some? <==> p.timerEnabled)
    && (p.target.None? ==> p.progressHandler.None? && p.completedHandler.None?)
    && (p.timerEnabled ==> p.device.Some?)
    && (!p.directInput ==> p.device.None?)
  }

  /** Adds enumerated devices to a catalog, in order; a later device with the
      same instance GUID overwrites an earlier one. */
  function AddDevices(names: map<Guid, string>, devices: seq<DeviceInstance>): (r: map<Guid, string>)
    ensures names.Keys <= r.Keys
    decreases |devices|
  {
    if |devices| == 0 then names
    else AddDevices(names[devices[0].instanceGuid := devices[0].instanceName], devices[1..])
  }

  /** The instance GUIDs an enumeration reports. */
  ghost function Guids(devices: seq<DeviceInstance>): set<Guid> {
    set i | 0 <= i < |devices| :: devices[i].instanceGuid
  }

  /** Enumeration adds exactly the enumerated instance GUIDs. */
  lemma {:induction false} AddDevicesKeys(names: map<Guid, string>, devices: seq<DeviceInstance>)
    ensures AddDevices(names, devices).Keys == names.Keys + Guids(devices)
    decreases |devices|
  {
    if |devices| > 0 {
      var first, tail := devices[0], devices[1..];
      AddDevicesKeys(names[first.instanceGuid := first.instanceName], tail);
      forall g | g in Guids(devices)
        ensures g == first.instanceGuid || g in Guids(tail)
      {
        var i :| 0 <= i < |devices| && devices[i].instanceGuid == g;
        if i > 0 {
          assert tail[i - 1].instanceGuid == g;
        }
      }
      forall g | g in Guids(tail)
        ensures g in Guids(devices)
      {
        var i :| 0 <= i < |tail| && tail[i].instanceGuid == g;
        assert devices[i + 1].instanceGuid == g;
      }
      assert first.instanceGuid == devices[0].instanceGuid;
    }
  }

  /** An entry no enumerated device names keeps its catalog name. */
  lemma {:induction false} AddDevicesKeepsOthers(names: map<Guid, string>, devices: seq<DeviceInstance>, g: Guid)
    requires g in names
    requires forall i :: 0 <= i < |devices| ==> devices[i].instanceGuid != g
    ensures AddDevices(names, devices)[g] == names[g]
    decreases |devices|
  {
    if |devices| > 0 {
      var tail := devices[1..];
      assert forall i :: 0 <= i < |tail| ==> tail[i] == devices[i + 1];
      AddDevicesKeepsOthers(names[devices[0].instanceGuid := devices[0].instanceName], tail, g);
    }
  }

  /** A device's name is recorded unless a later device has the same instance GUID. */
  lemma {:induction false} AddDevicesLastWins(names: map<Guid, string>, devices: seq<DeviceInstance>, i: nat)
    requires i < |devices|
    requires forall j :: i < j < |devices| ==> devices[j].instanceGuid != devices[i].instanceGuid
    ensures devices[i].instanceGuid in AddDevices(names, devices)
    ensures AddDevices(names, devices)[devices[i].instanceGuid] == devices[i].instanceName
    decreases |devices|
  {
    var tail := devices[1..];
    var m := names[devices[0].instanceGuid := devices[0].instanceName];
    assert forall j :: 0 <= j < |tail| ==> tail[j] == devices[j + 1];
    if i == 0 {
      AddDevicesKeepsOthers(m, tail, devices[0].instanceGuid);
    } else {
      AddDevicesLastWins(m, tail, i - 1);
    }
  }

  /** The constructor. `enumeration` is None when DirectInput creation or
      device enumeration throws; the catalog then holds only the "<none>" entry
      and DirectInput stays unavailable for the poller's lifetime. */
  function Create(enumeration: Option<seq<DeviceInstance>>): (p: Poller)
    ensures Idle(p) && p.device.None? && p.inputDeviceGuid == EmptyGuid
    ensures p.directInput <==> enumeration.Some?
    ensures enumeration.None? ==> p.inputDeviceNames == map[EmptyGuid := NoDeviceName]
    ensures EmptyGuid in p.inputDeviceNames
  {
    var base := map[EmptyGuid := NoDeviceName];
    var names := match enumeration
      case None => base
      case Some(devices) => AddDevices(base, devices);
    Poller(EmptyGuid, names, enumeration.Some?, None, 0, None, None, None, false)
  }

  /** After a successful enumeration the catalog holds "<none>" and the
      enumerated devices, and "<none>" keeps its name unless a device reports
      Guid.Empty as its instance GUID. */
  lemma CreateCatalog(devices: seq<DeviceInstance>)
    ensures Create(Some(devices)).inputDeviceNames.Keys == {EmptyGuid} + Guids(devices)
    ensures EmptyGuid !in Guids(devices) ==> Create(Some(devices)).inputDeviceNames[EmptyGuid] == NoDeviceName
  {
    var base := map[EmptyGuid := NoDeviceName];
    AddDevicesKeys(base, devices);
    if EmptyGuid !in Guids(devices) {
      AddDevicesKeepsOthers(base, devices, EmptyGuid);
    }
  }

  /** Whether `b` is being captured: a polled binding is the target, and an
      idle poller polls nothing. */
  function IsPolling(p: Poller, b: BindingId): (r: bool)
    ensures r ==> p.target == Some(b)
    ensures Idle(p) ==> !r
  {
    p.target == Some(b) && p.timerEnabled
  }

  /** The poller with its session, both handlers and the timer cleared. */
  function Cleared(p: Poller): Poller {
    p.(target := None, progressHandler := None, completedHandler := None, timerEnabled := false)
  }

  /** The private StopPolling(result): clears the session and the timer, then
      invokes the completion handler that was stored, if any. The handler
      observes the cleared poller. */
  function StopWithResult(p: Poller, result: Option<BindingValue>): (r: (Poller, seq<Event>))
    ensures Idle(r.0)
    ensures r.0.inputDeviceGuid == p.inputDeviceGuid && r.0.inputDeviceNames == p.inputDeviceNames
    ensures r.0.directInput == p.directInput && r.0.device == p.device && r.0.startTime == p.startTime
    ensures p.completedHandler.None? ==> r.1 == []
    ensures p.completedHandler.Some? ==> r.1 == [Completed(p.completedHandler.value, result, r.0)]
  {
    var handler := p.completedHandler;
    var q := Cleared(p);
    (q, if handler.Some? then [Completed(handler.value, result, q)] else [])
  }

  /** TryAcquireInputDevice: releases an open device that is not the selected
      one, creates the selected device if none is open, then acquires it. */
  function TryAcquire(p: Poller, oracle: AcquireOracle): (r: (Poller, bool))
    ensures r.0 == p.(device := r.0.device)
    ensures !p.directInput ==> r == (p, false)
    ensures r.1 ==> r.0.device == Some(p.inputDeviceGuid) && oracle.acquired
    ensures r.0.device.Some? ==> r.0.device == p.device || r.0.device == oracle.created
    ensures p.directInput && p.device.Some? && p.device != Some(p.inputDeviceGuid) && oracle.created.None? ==>
              !r.1 && r.0.device.None?
  {
    if !p.directInput then (p, false)
    else
      var p1 := if p.device.Some? && p.device.value != p.inputDeviceGuid then p.(device := None) else p;
      var p2 := if p1.device.None? then p1.(device := oracle.created) else p1;
      if p2.device.None? then (p2, false)
      else if !oracle.acquired then (p2, false)
      else (p2, p2.device.value == p.inputDeviceGuid)
  }

  /** StartPolling: supersedes a session on another binding, then tries to
      acquire the device; only on success is the new session recorded. */
  function StartPolling(p: Poller, b: BindingId, progress: Option<Handler>, completed: Option<Handler>,
                        oracle: AcquireOracle, now: int): (r: (Poller, seq<Event>))
    ensures r.0.inputDeviceGuid == p.inputDeviceGuid && r.0.inputDeviceNames == p.inputDeviceNames
    ensures r.0.directInput == p.directInput
    ensures r.0.timerEnabled ==>
              && r.0.target == Some(b) && r.0.progressHandler == progress
              && r.0.completedHandler == completed && r.0.startTime == now
              && r.0.device == Some(p.inputDeviceGuid)
    ensures !r.0.timerEnabled ==> Idle(r.0)
    ensures |r.1| <= 1
    ensures forall e :: e in r.1 ==>
              && e.Completed? && e.result.None? && Some(e.handler) == p.completedHandler
              && Idle(e.seen) && e.seen == Cleared(p).(device := e.seen.device)
  {
    var (p1, e1) := if p.target.Some? && p.target.value != b then StopWithResult(p, None) else (p, []);
    var (p2, ok) := TryAcquire(p1, oracle);
    if ok then
      (p2.(startTime := now, target := Some(b), progressHandler := progress,
           completedHandler := completed, timerEnabled := true), e1)
    else
      var (p3, e2) := StopWithResult(p2, None);
      (p3, e1 + e2)
  }

  /** The public StopPolling(binding): ends the session only if it targets `b`. */
  function StopPolling(p: Poller, b: BindingId): (r: (Poller, seq<Event>))
    ensures p.target != Some(b) ==> r == (p, [])
    ensures p.target == Some(b) ==> Idle(r.0) && r.0.device == p.device
                                    && r.1 == if p.completedHandler.Some? then [Completed(p.completedHandler.value, None, r.0)] else []
  {
    if p.target.Some? && p.target.value == b then StopWithResult(p, None) else (p, [])
  }

  /** The first POV hat that is not centred, else the first pressed button. */
  function Detect(state: JoystickState): (r: Option<BindingValue>)
    requires |state.povs| <= 4
    ensures r.Some? && r.value.inputType.IsPov() ==>
              var k := PovIndex(r.value.inputType);
              k < |state.povs| && state.povs[k] == r.value.value && state.povs[k] >= 0
              && forall j :: 0 <= j < k ==> state.povs[j] < 0
    ensures r.Some? && !r.value.inputType.IsPov() ==>
              r.value.inputType == Button && 0 <= r.value.value < |state.buttons| && state.buttons[r.value.value]
              && (forall j :: 0 <= j < |state.povs| ==> state.povs[j] < 0)
              && (forall j :: 0 <= j < r.value.value ==> !state.buttons[j])
    ensures r.None? <==> (forall j :: 0 <= j < |state.povs| ==> state.povs[j] < 0)
                         && (forall j :: 0 <= j < |state.buttons| ==> !state.buttons[j])
  {
    var k := FirstNonNegative(state.povs, 0);
    if k < |state.povs| then Some(BindingValue(PovType(k), state.povs[k]))
    else
      var i := FirstTrue(state.buttons, 0);
      if i < |state.buttons| then Some(BindingValue(Button, i)) else None
  }

  /** The least index from `from` on holding a non-negative value, or |s|. */
  function FirstNonNegative(s: seq<int>, from: nat): (k: nat)
    requires from <= |s|
    ensures from <= k <= |s|
    ensures k < |s| ==> s[k] >= 0
    ensures forall j :: from <= j < k ==> s[j] < 0
    decreases |s| - from
  {
    if from == |s| || s[from] >= 0 then from else FirstNonNegative(s, from + 1)
  }

  /** The least index from `from` on holding true, or |s|. */
  function FirstTrue(s: seq<bool>, from: nat): (k: nat)
    requires from <= |s|
    ensures from <= k <= |s|
    ensures k < |s| ==> s[k]
    ensures forall j :: from <= j < k ==> !s[j]
    decreases |s| - from
  {
    if from == |s| || s[from] then from else FirstTrue(s, from + 1)
  }

  /** The scan as the source writes it: two loops that break at the first hit. */
  method Scan(state: JoystickState) returns (r: Option<BindingValue>)
    requires |state.povs| <= 4
    ensures r == Detect(state)
  {
    r := None;
    var i := 0;
    while i < |state.povs|
      invariant 0 <= i <= |state.povs|
      invariant forall j :: 0 <= j < i ==> state.povs[j] < 0
    {
      if state.povs[i] >= 0 {
        r := Some(BindingValue(PovType(i), state.povs[i]));
        break;
      }
      i := i + 1;
    }
    if r.None? {
      i := 0;
      while i < |state.buttons|
        invariant 0 <= i <= |state.buttons|
        invariant forall j :: 0 <= j < i ==> !state.buttons[j]
      {
        if state.buttons[i] {
          r := Some(BindingValue(Button, i));
          break;
        }
        i := i + 1;
      }
    }
  }

  /** HandleTimerTick. `sample` is None when reading the device throws. */
  function Tick(p: Poller, sample: Option<JoystickState>, now: int): (r: (Poller, seq<Event>))
    requires sample.Some? ==> |sample.value.povs| <= 4
    ensures !(p.directInput && p.device.Some?) ==> r == (p, [])
    ensures r.0.inputDeviceGuid == p.inputDeviceGuid && r.0.inputDeviceNames == p.inputDeviceNames
    ensures r.0.directInput == p.directInput && r.0.device == p.device && r.0.startTime == p.startTime
    ensures r.0 == p || Idle(r.0)
    ensures |r.1| <= 1
    ensures forall e :: e in r.1 && e.Completed? ==> e.seen == r.0 && Idle(r.0) && Some(e.handler) == p.completedHandler
    ensures forall e :: e in r.1 && e.Progress? ==>
              e.remaining > 0 && Some(e.handler) == p.progressHandler && r.0 == p
  {
    if !(p.directInput && p.device.Some?) then (p, [])
    else
      var (p1, e1, result) :=
        match sample
        case None => var (q, e) := StopWithResult(p, None); (q, e, None)
        case Some(state) => (p, [], Detect(state));
      if result.Some? then
        var (q, e) := StopWithResult(p1, result);
        (q, e1 + e)
      else
        var remaining := p1.startTime + MaxDuration - now;
        if remaining > 0 then
          (p1, e1 + if p1.progressHandler.Some? then [Progress(p1.progressHandler.value, remaining)] else [])
        else
          var (q, e) := StopWithResult(p1, None);
          (q, e1 + e)
  }

  /** The catalog never changes, so Inv's first conjunct needs no re-proof;
      the constructor establishes the invariant. */
  lemma CreateEstablishesInv(enumeration: Option<seq<DeviceInstance>>)
    ensures Inv(Create(enumeration))
  {
  }

  lemma StartPreservesInv(p: Poller, b: BindingId, progress: Option<Handler>, completed: Option<Handler>,
                          oracle: AcquireOracle, now: int)
    requires Inv(p)
    ensures Inv(StartPolling(p, b, progress, completed, oracle, now).0)
  {
  }

  lemma StopPreservesInv(p: Poller, b: BindingId)
    requires Inv(p)
    ensures Inv(StopPolling(p, b).0)
  {
  }

  lemma TickPreservesInv(p: Poller, sample: Option<JoystickState>, now: int)
    requires sample.Some? ==> |sample.value.povs| <= 4
    requires Inv(p)
    ensures Inv(Tick(p, sample, now).0)
  {
  }

  /** In a reachable state, IsPolling(b) holds exactly when b is the target. */
  lemma IsPollingIffTarget(p: Poller, b: BindingId)
    requires Inv(p)
    ensures IsPolling(p, b) <==> p.target == Some(b)
  {
  }

  /** Starting on b2 while b1 != b2 is targeted ends b1's session first: its
      completion handler runs once with no result, before anything else. */
  lemma StartSupersedesOtherTarget(p: Poller, b: BindingId, progress: Option<Handler>, completed: Option<Handler>,
                                   oracle: AcquireOracle, now: int)
    requires Inv(p)
    requires p.target.Some? && p.target.value != b && p.completedHandler.Some?
    ensures StartPolling(p, b, progress, completed, oracle, now).1 == [Completed(p.completedHandler.value, None, Cleared(p))]
  {
  }

  /** When acquisition fails no session is recorded, and the handlers just
      passed in are neither stored nor invoked; only a previously stored
      completion handler can run. */
  lemma StartFailureRecordsNothing(p: Poller, b: BindingId, progress: Option<Handler>, completed: Option<Handler>,
                                   oracle: AcquireOracle, now: int)
    requires Inv(p)
    requires !TryAcquire(if p.target.Some? && p.target.value != b then StopWithResult(p, None).0 else p, oracle).1
    ensures var (q, events) := StartPolling(p, b, progress, completed, oracle, now);
            Idle(q) && !IsPolling(q, b)
            && (p.completedHandler.None? ==> events == [])
            && (p.completedHandler.Some? ==> |events| == 1 && events[0] == Completed(p.completedHandler.value, None, events[0].seen))
  {
  }

  /** Without DirectInput (initialisation failed) every capture attempt fails
      at once, and the new completion handler never runs. */
  lemma NoDirectInputNeverPolls(p: Poller, b: BindingId, progress: Option<Handler>, completed: Option<Handler>,
                                oracle: AcquireOracle, now: int)
    requires Inv(p) && !p.directInput
    ensures var (q, events) := StartPolling(p, b, progress, completed, oracle, now);
            !IsPolling(q, b) && events == []
  {
  }

  /** A successful start targets `b`, stores the given handlers and records the clock. */
  lemma StartSuccess(p: Poller, b: BindingId, progress: Option<Handler>, completed: Option<Handler>,
                     oracle: AcquireOracle, now: int)
    requires Inv(p) && p.directInput && oracle.acquired
    requires p.device == Some(p.inputDeviceGuid) || oracle.created == Some(p.inputDeviceGuid)
    ensures var (q, _) := StartPolling(p, b, progress, completed, oracle, now);
            IsPolling(q, b) && q.startTime == now && q.completedHandler == completed
            && q.progressHandler == progress
  {
  }

  /** Re-starting on the binding already targeted replaces its handlers and
      restarts its clock without running the old completion handler. */
  lemma RestartSameTargetDropsCompletion(p: Poller, b: BindingId, progress: Option<Handler>, completed: Option<Handler>,
                                         oracle: AcquireOracle, now: int)
    requires Inv(p) && p.target == Some(b) && TryAcquire(p, oracle).1
    ensures StartPolling(p, b, progress, completed, oracle, now).1 == []
  {
  }

  /** Stopping twice fires the completion handler at most once. */
  lemma StopTwiceCompletesOnce(p: Poller, b: BindingId)
    ensures var (q, e1) := StopPolling(p, b);
            var (q2, e2) := StopPolling(q, b);
            q2 == q && e2 == [] && |e1| <= 1
  {
  }

  /** A detection ends the session and reports the detected binding value. */
  lemma TickDetection(p: Poller, state: JoystickState, now: int)
    requires |state.povs| <= 4
    requires p.directInput && p.device.Some? && Detect(state).Some?
    ensures var (q, events) := Tick(p, Some(state), now);
            Idle(q)
            && events == if p.completedHandler.Some? then [Completed(p.completedHandler.value, Detect(state), q)] else []
  {
  }

  /** Without a detection the tick reports the remaining time while it is
      positive, and ends the session with no result once it is not. */
  lemma TickWithoutDetection(p: Poller, state: JoystickState, now: int)
    requires |state.povs| <= 4
    requires p.directInput && p.device.Some? && Detect(state).None?
    ensures var (q, events) := Tick(p, Some(state), now);
            var remaining := p.startTime + MaxDuration - now;
            (remaining > 0 ==> q == p && events == if p.progressHandler.Some? then [Progress(p.progressHandler.value, remaining)] else [])
            && (remaining <= 0 ==> Idle(q) && events == if p.completedHandler.Some? then [Completed(p.completedHandler.value, None, q)] else [])
  {
  }

  /** A read failure ends the session with no result, and the rest of the tick
      invokes nothing further. */
  lemma TickReadFailure(p: Poller, now: int)
    requires p.directInput && p.device.Some?
    ensures var (q, events) := Tick(p, None, now);
            Idle(q)
            && events == if p.completedHandler.Some? then [Completed(p.completedHandler.value, None, q)] else []
  {
  }

  /** POV hats take priority over buttons. */
  lemma PovBeforeButtons(state: JoystickState, k: nat)
    requires |state.povs| <= 4 && k < |state.povs| && state.povs[k] >= 0
    ensures Detect(state).Some? && Detect(state).value.inputType.IsPov()
    ensures PovIndex(Detect(state).value.inputType) <= k
  {
  }

  /** With a clock that moves forward, successive progress reports of one
      session carry strictly decreasing remaining times. */
  lemma ProgressDecreases(p: Poller, s1: JoystickState, t1: int, s2: JoystickState, t2: int)
    requires |s1.povs| <= 4 && |s2.povs| <= 4
    requires t1 < t2
    requires var (_, e1) := Tick(p, Some(s1), t1); |e1| == 1 && e1[0].Progress?
    requires var (q, _) := Tick(p, Some(s1), t1);
             var (_, e2) := Tick(q, Some(s2), t2); |e2| == 1 && e2[0].Progress?
    ensures var (q, e1) := Tick(p, Some(s1), t1);
            var (_, e2) := Tick(q, Some(s2), t2);
            e2[0].remaining < e1[0].remaining
  {
  }
}
