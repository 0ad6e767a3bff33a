/** The settings view's control for one binding (InputBindingControl.xaml.cs):
    the text of its assign button, and its clear and assign buttons, which
    drive the input-capture state machine.

    Every control passes its own binding's identity as the identity of both
    handlers it registers, so a completion for handler `b` is the lambda of
    the control that edits binding `b`. */
module BindingControl {
  import opened Common
  import opened Text
  import opened InputPoller

  /** The C# enum member names, as Enum.ToString prints them. */
  function TypeName(t: InputType): (s: string)
    ensures 1 <= |s| && ' ' !in s
  {
    match t
    case Unset => "Unset"
    case Button => "Button"
    case POV0 => "POV0"
    case POV1 => "POV1"
    case POV2 => "POV2"
    case POV3 => "POV3"
  }

  /** The hat direction an exact POV angle names, if any. */
  function Direction(angle: int): Option<string> {
    if angle == 0 then Some("Up")
    else if angle == 9000 then Some("Right")
    else if angle == 18000 then Some("Down")
    else if angle == 27000 then Some("Left")
    else None
  }

  const WaitingPrefix := "Waiting for input... ("
  const UnassignedText := "<unassigned>"

  /** Math.Ceiling of the remaining time in seconds. */
  function SecondsShown(remaining: int): (n: int)
    ensures (n - 1) * TicksPerSecond < remaining <= n * TicksPerSecond
  {
    -((-remaining) / TicksPerSecond)
  }

  /** "Type Value" for an assigned binding. */
  function BindingHead(b: BindingValue): string {
    TypeName(b.inputType) + " " + IntToDecimal(b.value)
  }

  /** The text of an assigned binding: "Type Value", followed by the hat
      direction in parentheses for a POV binding at an exact direction. */
  function BindingText(b: BindingValue): (s: string)
    ensures |BindingHead(b)| <= |s| && s[..|BindingHead(b)|] == BindingHead(b)
    ensures s != BindingHead(b) <==> b.inputType.IsPov() && b.value in {0, 9000, 18000, 27000}
    ensures s != BindingHead(b) ==> s[|BindingHead(b)|..] == " (" + Direction(b.value).value + ")"
  {
    BindingHead(b) + DirectionSuffix(b)
  }

  /** " (Up)", " (Right)", " (Down)" or " (Left)" for a POV binding at an exact direction, else nothing. */
  function DirectionSuffix(b: BindingValue): (s: string)
    ensures s == "" || s[0] == ' '
  {
    if b.inputType.IsPov() && Direction(b.value).Some? then " (" + Direction(b.value).value + ")" else ""
  }

  /** UpdateAssignButtonContent: no content without a binding; the countdown
      while a capture reports progress; otherwise the binding itself. */
  function AssignButtonText(binding: Option<BindingValue>, remaining: Option<int>): (r: Option<string>)
    ensures r.None? <==> binding.None?
    ensures binding.Some? && remaining.Some? ==>
              r.value == WaitingPrefix + IntToDecimal(SecondsShown(remaining.value)) + ")"
    ensures binding.Some? && remaining.None? && binding.value.inputType == Unset ==> r.value == UnassignedText
    ensures binding.Some? && remaining.None? && binding.value.inputType != Unset ==> r.value == BindingText(binding.value)
  {
    if binding.None? then None
    else if remaining.Some? then Some(WaitingPrefix + IntToDecimal(SecondsShown(remaining.value)) + ")")
    else if binding.value.inputType == Unset then Some(UnassignedText)
    else Some(BindingText(binding.value))
  }

  /** The three kinds of label never coincide: the countdown, "<unassigned>"
      and the text of any binding can always be told apart. */
  lemma AssignButtonStatesDistinct(b: BindingValue, remaining: int, other: BindingValue)
    ensures var waiting := AssignButtonText(Some(b), Some(remaining)).value;
            waiting != UnassignedText && waiting != BindingText(other) && UnassignedText != BindingText(other)
  {
    var waiting := AssignButtonText(Some(b), Some(remaining)).value;
    var s := BindingText(other);
    assert waiting[0] == 'W' && UnassignedText[0] == '<';
    assert s[0] == BindingHead(other)[0] == TypeName(other.inputType)[0];
    assert s[0] in {'U', 'B', 'P'};
  }

  /** Outside a capture the label identifies the binding: two bindings with
      the same label are equal, or both unassigned. */
  lemma IdleLabelDeterminesBinding(b1: BindingValue, b2: BindingValue)
    requires AssignButtonText(Some(b1), None) == AssignButtonText(Some(b2), None)
    ensures b1 == b2 || (b1.inputType == Unset && b2.inputType == Unset)
  {
    if b1.inputType != Unset && b2.inputType != Unset {
      BindingTextInjective(b1, b2);
    } else {
      AssignButtonStatesDistinct(b1, 1, b2);
      AssignButtonStatesDistinct(b2, 1, b1);
    }
  }

  /** Within a capture the countdown shows 5, 4, 3, 2 or 1. */
  lemma CountdownBounded(remaining: int)
    requires 0 < remaining <= MaxDuration
    ensures 1 <= SecondsShown(remaining) <= 5
  {
  }

  /** A space-free word followed by nothing or by a space is determined by the whole. */
  lemma WordBeforeOptionalSpace(d1: string, t1: string, d2: string, t2: string)
    requires ' ' !in d1 && ' ' !in d2
    requires t1 == "" || t1[0] == ' '
    requires t2 == "" || t2[0] == ' '
    requires d1 + t1 == d2 + t2
    ensures d1 == d2
  {
    var s := d1 + t1;
    assert forall k :: 0 <= k < |d1| ==> s[k] == d1[k];
    assert forall k :: 0 <= k < |d2| ==> s[k] == d2[k];
    assert t1 != "" ==> s[|d1|] == ' ';
    assert t2 != "" ==> s[|d2|] == ' ';
    assert |d1| == |d2|;
    assert d1 == s[..|d1|] == d2;
  }

  /** The six type names are distinct. */
  lemma TypeNameInjective(t1: InputType, t2: InputType)
    requires TypeName(t1) == TypeName(t2)
    ensures t1 == t2
  {
    match t1
    case Unset => assert TypeName(t2)[0] == 'U';
    case Button => assert TypeName(t2)[0] == 'B';
    case POV0 => assert TypeName(t2)[3] == '0';
    case POV1 => assert TypeName(t2)[3] == '1';
    case POV2 => assert TypeName(t2)[3] == '2';
    case POV3 => assert TypeName(t2)[3] == '3';
  }

  /** The binding text split at its first space: the type name, then the
      value and the optional direction. */
  lemma BindingTextShape(b: BindingValue)
    ensures BindingText(b) == TypeName(b.inputType) + " " + (IntToDecimal(b.value) + DirectionSuffix(b))
  {
  }

  /** Distinct assigned bindings are shown with distinct texts. */
  lemma BindingTextInjective(b1: BindingValue, b2: BindingValue)
    requires BindingText(b1) == BindingText(b2)
    ensures b1 == b2
  {
    var d1, d2 := IntToDecimal(b1.value), IntToDecimal(b2.value);
    var t1, t2 := DirectionSuffix(b1), DirectionSuffix(b2);
    BindingTextShape(b1);
    BindingTextShape(b2);
    SplitAtFirstSpace(TypeName(b1.inputType), d1 + t1, TypeName(b2.inputType), d2 + t2);
    TypeNameInjective(b1.inputType, b2.inputType);
    WordBeforeOptionalSpace(d1, t1, d2, t2);
    IntToDecimalInjective(b1.value, b2.value);
  }

  /** The controls' bindings together with the one capture state machine. */
  datatype Ui = Ui(poller: Poller, bindings: map<BindingId, BindingValue>)

  /** Runs handler invocations against the controls: a completion with a
      result overwrites the binding of the control that registered it; a
      completion without one, and a progress report, only redraw the label. */
  function Deliver(bindings: map<BindingId, BindingValue>, events: seq<Event>): (r: map<BindingId, BindingValue>)
    ensures r.Keys == bindings.Keys
    ensures (forall e :: e in events && e.Completed? ==> e.result.None?) ==> r == bindings
    decreases |events|
  {
    if |events| == 0 then bindings
    else
      var e := events[0];
      var next := if e.Completed? && e.result.Some? && e.handler in bindings then bindings[e.handler := e.result.value] else bindings;
      assert forall x :: x in events[1..] ==> x in events;
      Deliver(next, events[1..])
  }

  /** Every session the controls start registers the target's own handlers. */
  predicate UiInv(u: Ui) {
    && Inv(u.poller)
    && (u.poller.target.Some? ==>
          u.poller.completedHandler == u.poller.target && u.poller.progressHandler == u.poller.target
          && u.poller.target.value in u.bindings)
  }

  /** HandleClearButtonClicked: stops a capture of this binding first, then
      resets the binding to Unset/-1. */
  function ClearClicked(u: Ui, b: BindingId): (r: Ui)
    requires b in u.bindings
    ensures r.bindings == u.bindings[b := UnsetBinding]
    ensures !IsPolling(r.poller, b)
    ensures u.poller.target != Some(b) || !u.poller.timerEnabled ==> r.poller == u.poller
    ensures IsPolling(u.poller, b) ==> Idle(r.poller)
  {
    var (p, events) := if IsPolling(u.poller, b) then StopPolling(u.poller, b) else (u.poller, []);
    var stopped := Deliver(u.bindings, events);
    Ui(p, stopped[b := UnsetBinding])
  }

  /** HandleAssignButtonClicked: a second click stops the capture; otherwise
      a capture of this binding starts, superseding any other. */
  function AssignClicked(u: Ui, b: BindingId, oracle: AcquireOracle, now: int): (r: Ui)
    requires b in u.bindings
    ensures r.bindings == u.bindings
    ensures IsPolling(u.poller, b) ==> Idle(r.poller)
    ensures !IsPolling(u.poller, b) ==> (Idle(r.poller) || (IsPolling(r.poller, b) && r.poller.startTime == now))
  {
    var (p, events) :=
      if IsPolling(u.poller, b) then StopPolling(u.poller, b)
      else StartPolling(u.poller, b, Some(b), Some(b), oracle, now);
    Ui(p, Deliver(u.bindings, events))
  }

  /** A timer tick, with its handler invocations delivered to the controls. */
  function TimerTick(u: Ui, sample: Option<JoystickState>, now: int): (r: Ui)
    requires sample.Some? ==> |sample.value.povs| <= 4
    ensures r.bindings.Keys == u.bindings.Keys
  {
    if u.poller.timerEnabled then
      var (p, events) := Tick(u.poller, sample, now);
      Ui(p, Deliver(u.bindings, events))
    else u
  }

  lemma ClearPreservesUiInv(u: Ui, b: BindingId)
    requires b in u.bindings && UiInv(u)
    ensures UiInv(ClearClicked(u, b))
  {
  }

  lemma AssignPreservesUiInv(u: Ui, b: BindingId, oracle: AcquireOracle, now: int)
    requires b in u.bindings && UiInv(u)
    ensures UiInv(AssignClicked(u, b, oracle, now))
  {
    if !IsPolling(u.poller, b) {
      StartPreservesInv(u.poller, b, Some(b), Some(b), oracle, now);
    }
  }

  lemma TickPreservesUiInv(u: Ui, sample: Option<JoystickState>, now: int)
    requires sample.Some? ==> |sample.value.povs| <= 4
    requires UiInv(u)
    ensures UiInv(TimerTick(u, sample, now))
  {
    if u.poller.timerEnabled {
      TickPreservesInv(u.poller, sample, now);
    }
  }

  /** A detection during a capture the controls started is written into the
      captured binding, and no other binding changes. */
  lemma DetectionAssignsBinding(u: Ui, b: BindingId, state: JoystickState, now: int)
    requires |state.povs| <= 4
    requires UiInv(u) && IsPolling(u.poller, b) && Detect(state).Some?
    ensures var r := TimerTick(u, Some(state), now);
            r.bindings == u.bindings[b := Detect(state).value] && !IsPolling(r.poller, b)
  {
    TickDetection(u.poller, state, now);
  }

  /** A tick that ends without a result (time-out or read failure), or that
      only reports progress, leaves every binding as it was. */
  lemma NoResultLeavesBindings(u: Ui, sample: Option<JoystickState>, now: int)
    requires sample.Some? ==> |sample.value.povs| <= 4
    requires sample.None? || Detect(sample.value).None?
    ensures TimerTick(u, sample, now).bindings == u.bindings
  {
    if u.poller.timerEnabled && u.poller.directInput && u.poller.device.Some? {
      if sample.None? {
        TickReadFailure(u.poller, now);
      } else {
        TickWithoutDetection(u.poller, sample.value, now);
      }
    }
  }
}
