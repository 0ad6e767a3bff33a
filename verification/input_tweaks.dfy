/** The API layer's per-frame input synthesis (inputtweaks.h/.cpp). Each
    frame it samples the controller, advances every binding's edge detector,
    steps the mouse-simulation mode, and synthesizes at most one mouse input
    and one keyboard input from the click, scroll and Escape bindings.

    The controller sample, whether the game window is in the foreground, the
    rounded head-motion deltas and the Escape scan code are frame inputs; the
    synthesized inputs are the step's output instead of a SendInput call. */
module InputTweaks {
  import opened Common
  import opened LayerSettings

  /** One notch of the mouse wheel. */
  const WheelDelta := 120

  datatype MouseFlag = Move | LeftDown | LeftUp | RightDown | RightUp | Wheel

  datatype KeyFlag = ScanCode | KeyUp

  datatype Input =
    | MouseInput(flags: set<MouseFlag>, mouseData: int, dx: int, dy: int)
    | KeyboardInput(scan: int, keyFlags: set<KeyFlag>)

  /** The layer's state; the head-pose history is not part of this model. */
  datatype Tweaks = Tweaks(
    isInitialized: bool,
    settings: Settings,
    hasDirectInput: bool,
    hasInputDevice: bool,
    mouseActive: bool,
    leftDown: bool,
    rightDown: bool,
    escapeDown: bool)

  /** A freshly constructed InputTweaks object. */
  const Initial := Tweaks(false, DefaultSettings, false, false, false, false, false, false)

  /** What one frame sees from the outside. `sample` is None when reading the
      device fails; `motion` is the rounded yaw and pitch deltas, present only
      when the last two head poses are both known. */
  datatype Frame = Frame(sample: Option<JoyState2>, foreground: bool, motion: Option<(int, int)>, escapeScan: int)

  predicate WellFormedFrame(f: Frame) {
    f.sample.Some? ==> f.sample.value.WellFormed()
  }

  /** Whether an input would be handed to SendInput: it carries a flag, a scan
      code or a movement. */
  predicate Carries(i: Input) {
    match i
    case MouseInput(flags, _, dx, dy) => dx != 0 || dy != 0 || flags != {}
    case KeyboardInput(scan, keyFlags) => scan != 0 || keyFlags != {}
  }

  /** The mouse-simulation mode step. */
  function NextMouseActive(mode: MouseSimulationMode, active: bool, toggle: LayerBinding, foreground: bool): (r: bool)
    ensures mode == AlwaysDisabled ==> !r
    ensures mode == AlwaysEnabled ==> (r <==> foreground)
    ensures mode == HoldToEnable ==> (r <==> toggle.IsHeld())
    ensures mode == PressToToggle ==> (r <==> (active != toggle.IsPressed()))
  {
    match mode
    case AlwaysDisabled => false
    case AlwaysEnabled => foreground
    case HoldToEnable => toggle.IsHeld()
    case PressToToggle => if toggle.IsPressed() then !active else active
  }

  /** The dwFlags word of a mouse input, one flag per condition. */
  function FlagSet(leftDown: bool, rightDown: bool, wheel: bool, move: bool, leftUp: bool, rightUp: bool)
    : (s: set<MouseFlag>)
    ensures LeftDown in s <==> leftDown
    ensures RightDown in s <==> rightDown
    ensures Wheel in s <==> wheel
    ensures Move in s <==> move
    ensures LeftUp in s <==> leftUp
    ensures RightUp in s <==> rightUp
    ensures s == {} <==> !(leftDown || rightDown || wheel || move || leftUp || rightUp)
  {
    (if leftDown then {LeftDown} else {}) + (if rightDown then {RightDown} else {})
    + (if wheel then {Wheel} else {}) + (if move then {Move} else {})
    + (if leftUp then {LeftUp} else {}) + (if rightUp then {RightUp} else {})
  }

  /** The mouse half of a frame, from the already updated bindings. */
  function MouseStep(active: bool, b: Bindings, leftDown: bool, rightDown: bool, motion: Option<(int, int)>)
    : (r: (Input, bool, bool))
    ensures r.0.MouseInput?
    ensures LeftDown in r.0.flags <==> active && b.mouseLeftClick.IsPressed()
    ensures RightDown in r.0.flags <==> active && b.mouseRightClick.IsPressed()
    ensures LeftUp in r.0.flags <==> leftDown && !b.mouseLeftClick.IsHeld()
    ensures RightUp in r.0.flags <==> rightDown && !b.mouseRightClick.IsHeld()
    ensures r.1 <==> (leftDown || (active && b.mouseLeftClick.IsPressed())) && b.mouseLeftClick.IsHeld()
    ensures r.2 <==> (rightDown || (active && b.mouseRightClick.IsPressed())) && b.mouseRightClick.IsHeld()
    ensures Wheel in r.0.flags <==> active && (b.mouseScrollUp.IsPressed() || b.mouseScrollDown.IsPressed())
    ensures r.0.mouseData == (if active && b.mouseScrollDown.IsPressed() then -WheelDelta
                              else if active && b.mouseScrollUp.IsPressed() then WheelDelta else 0)
    ensures Move in r.0.flags <==> active && motion.Some?
    ensures r.0.dx == (if active && motion.Some? then motion.value.0 else 0)
    ensures r.0.dy == (if active && motion.Some? then motion.value.1 else 0)
  {
    var (leftPress, leftUp, left) := ClickStep(active, b.mouseLeftClick, leftDown);
    var (rightPress, rightUp, right) := ClickStep(active, b.mouseRightClick, rightDown);
    var upPress := active && b.mouseScrollUp.IsPressed();
    var downPress := active && b.mouseScrollDown.IsPressed();
    var moving := active && motion.Some?;
    var flags := FlagSet(leftPress, rightPress, upPress || downPress, moving, leftUp, rightUp);
    var data := if downPress then -WheelDelta else if upPress then WheelDelta else 0;
    var dx := if moving then motion.value.0 else 0;
    var dy := if moving then motion.value.1 else 0;
    (MouseInput(flags, data, dx, dy), left, right)
  }

  /** One simulated mouse button: whether it goes down, whether it goes up,
      and its new latch. A press while active latches it; a latched button
      that is no longer held is released. */
  function ClickStep(active: bool, click: LayerBinding, latched: bool): (r: (bool, bool, bool))
    ensures r.0 <==> active && click.IsPressed()
    ensures r.1 <==> latched && !click.IsHeld()
    ensures r.2 <==> (latched || r.0) && click.IsHeld()
  {
    var press := active && click.IsPressed();
    var latch := latched || press;
    var up := latch && !click.IsHeld();
    (press, up, latch && !up)
  }

  /** The keyboard half of a frame: Escape down on a press, else Escape up
      once a latched key is released. */
  function EscapeStep(escape: LayerBinding, escapeDown: bool, scan: int): (r: (Input, bool))
    ensures r.0.KeyboardInput?
    ensures escape.IsPressed() ==> r.0 == KeyboardInput(scan, {ScanCode}) && r.1
    ensures !escape.IsPressed() && escapeDown && !escape.IsHeld() ==> r.0 == KeyboardInput(scan, {ScanCode, KeyUp}) && !r.1
    ensures !escape.IsPressed() && !(escapeDown && !escape.IsHeld()) ==> r.0 == KeyboardInput(0, {}) && r.1 == escapeDown
  {
    if escape.IsPressed() then (KeyboardInput(scan, {ScanCode}), true)
    else if escapeDown && !escape.IsHeld() then (KeyboardInput(scan, {ScanCode, KeyUp}), false)
    else (KeyboardInput(0, {}), escapeDown)
  }

  /** The inputs handed to SendInput: the mouse input, then the keyboard
      input, each only if it carries something. */
  function Emit(mouse: Input, keyboard: Input): (r: seq<Input>)
    ensures forall i :: i in r ==> Carries(i)
    ensures mouse in r <==> Carries(mouse)
    ensures keyboard in r <==> Carries(keyboard)
    ensures |r| <= 2
  {
    (if Carries(mouse) then [mouse] else []) + (if Carries(keyboard) then [keyboard] else [])
  }

  /** InputTweaks::update. */
  function Update(t: Tweaks, f: Frame): (r: (Tweaks, seq<Input>))
    requires WellFormedFrame(f)
    ensures !t.isInitialized || f.sample.None? ==> r == (t, [])
    ensures r.0.isInitialized == t.isInitialized && r.0.hasDirectInput == t.hasDirectInput
    ensures r.0.hasInputDevice == t.hasInputDevice
    ensures r.0.settings.mouseSimulationMode == t.settings.mouseSimulationMode
    ensures forall i :: i in r.1 ==> Carries(i)
    ensures |r.1| <= 2
  {
    if !t.isInitialized || f.sample.None? then (t, [])
    else
      var b := t.settings.inputBindings.UpdateAll(f.sample.value);
      var active := NextMouseActive(t.settings.mouseSimulationMode, t.mouseActive, b.simulateMouse, f.foreground);
      var (mouse, left, right) := MouseStep(active, b, t.leftDown, t.rightDown, f.motion);
      var (keyboard, escape) := EscapeStep(b.escape, t.escapeDown, f.escapeScan);
      (t.(settings := t.settings.(inputBindings := b), mouseActive := active,
          leftDown := left, rightDown := right, escapeDown := escape),
       Emit(mouse, keyboard))
  }

  /** The mouse input a frame emits, if any. */
  function MouseOf(inputs: seq<Input>): Option<Input> {
    if |inputs| > 0 && inputs[0].MouseInput? then Some(inputs[0]) else None
  }

  /** The keyboard input a frame emits, if any. */
  function KeyboardOf(inputs: seq<Input>): Option<Input> {
    if |inputs| > 0 && inputs[|inputs| - 1].KeyboardInput? then Some(inputs[|inputs| - 1]) else None
  }

  /** The keyboard input a successful frame sends is the Escape step's, if it carries anything. */
  lemma KeyboardOfUpdate(t: Tweaks, f: Frame)
    requires WellFormedFrame(f) && t.isInitialized && f.sample.Some?
    ensures var b := t.settings.inputBindings.UpdateAll(f.sample.value);
            var (keyboard, escape) := EscapeStep(b.escape, t.escapeDown, f.escapeScan);
            && Update(t, f).0.settings.inputBindings == b
            && Update(t, f).0.escapeDown == escape
            && KeyboardOf(Update(t, f).1) == (if Carries(keyboard) then Some(keyboard) else None)
  {
    var b := t.settings.inputBindings.UpdateAll(f.sample.value);
    var active := NextMouseActive(t.settings.mouseSimulationMode, t.mouseActive, b.simulateMouse, f.foreground);
    var (mouse, _, _) := MouseStep(active, b, t.leftDown, t.rightDown, f.motion);
    var (keyboard, _) := EscapeStep(b.escape, t.escapeDown, f.escapeScan);
    assert Update(t, f).1 == Emit(mouse, keyboard);
    KeyboardOfEmit(mouse, keyboard);
  }

  /** Of the inputs sent, the keyboard input is the last one. */
  lemma KeyboardOfEmit(mouse: Input, keyboard: Input)
    requires mouse.MouseInput? && keyboard.KeyboardInput?
    ensures KeyboardOf(Emit(mouse, keyboard)) == (if Carries(keyboard) then Some(keyboard) else None)
  {
  }

  /** A fresh InputTweaks is uninitialized, holds no DirectInput or device
      handle, has the mouse inactive and every latch up, and does nothing
      until initialized. */
  lemma InitialIsInert(f: Frame)
    requires WellFormedFrame(f)
    ensures !Initial.isInitialized && !Initial.hasDirectInput && !Initial.hasInputDevice
    ensures !Initial.mouseActive && !Initial.leftDown && !Initial.rightDown && !Initial.escapeDown
    ensures Update(Initial, f) == (Initial, [])
  {
  }

  /** After every successful frame, each latch implies that its binding is held. */
  lemma LatchesImplyHeld(t: Tweaks, f: Frame)
    requires WellFormedFrame(f) && t.isInitialized && f.sample.Some?
    ensures var b := Update(t, f).0.settings.inputBindings;
            && (Update(t, f).0.leftDown ==> b.mouseLeftClick.IsHeld())
            && (Update(t, f).0.rightDown ==> b.mouseRightClick.IsHeld())
            && (Update(t, f).0.escapeDown ==> b.escape.IsHeld())
  {
  }

  /** The mode step over a whole frame: the mouse becomes active according to
      the mode, from the freshly updated toggle binding. */
  lemma FrameModeStep(t: Tweaks, f: Frame)
    requires WellFormedFrame(f) && t.isInitialized && f.sample.Some?
    ensures var r := Update(t, f).0;
            var toggle := r.settings.inputBindings.simulateMouse;
            match t.settings.mouseSimulationMode
            case AlwaysDisabled => !r.mouseActive
            case AlwaysEnabled => r.mouseActive == f.foreground
            case HoldToEnable => r.mouseActive == toggle.IsHeld()
            case PressToToggle => r.mouseActive == (t.mouseActive != toggle.IsPressed())
  {
  }

  /** A click press while the mouse is active emits the button's DOWN and
      latches it; a latched button no longer held emits UP and unlatches,
      whatever the mode. DOWN and UP for one button never share a frame. */
  lemma ClickLatches(t: Tweaks, f: Frame)
    requires WellFormedFrame(f) && t.isInitialized && f.sample.Some?
    ensures var (r, inputs) := Update(t, f);
            var b := r.settings.inputBindings;
            MouseOf(inputs).Some? ==>
              && (LeftDown in MouseOf(inputs).value.flags <==> r.mouseActive && b.mouseLeftClick.IsPressed())
              && (LeftUp in MouseOf(inputs).value.flags <==> t.leftDown && !b.mouseLeftClick.IsHeld())
              && (RightDown in MouseOf(inputs).value.flags <==> r.mouseActive && b.mouseRightClick.IsPressed())
              && (RightUp in MouseOf(inputs).value.flags <==> t.rightDown && !b.mouseRightClick.IsHeld())
              && !(LeftDown in MouseOf(inputs).value.flags && LeftUp in MouseOf(inputs).value.flags)
              && !(RightDown in MouseOf(inputs).value.flags && RightUp in MouseOf(inputs).value.flags)
    ensures var (r, inputs) := Update(t, f);
            var b := r.settings.inputBindings;
            && (r.mouseActive && b.mouseLeftClick.IsPressed() ==> r.leftDown && MouseOf(inputs).Some?)
            && (t.leftDown && !b.mouseLeftClick.IsHeld() ==> !r.leftDown && MouseOf(inputs).Some?)
  {
    var b := t.settings.inputBindings.UpdateAll(f.sample.value);
    PressedImpliesHeld(b.mouseLeftClick);
    PressedImpliesHeld(b.mouseRightClick);
  }

  /** When both scroll bindings are pressed in one frame, down wins. */
  lemma ScrollDownOverridesUp(t: Tweaks, f: Frame)
    requires WellFormedFrame(f) && t.isInitialized && f.sample.Some?
    requires var b := Update(t, f).0.settings.inputBindings;
             b.mouseScrollUp.IsPressed() && b.mouseScrollDown.IsPressed() && Update(t, f).0.mouseActive
    ensures MouseOf(Update(t, f).1).Some?
    ensures MouseOf(Update(t, f).1).value.mouseData == -WheelDelta
    ensures Wheel in MouseOf(Update(t, f).1).value.flags
  {
  }

  /** The Escape key: a press emits key-down and latches; otherwise a latched
      key that is no longer held emits key-up and unlatches; the two never
      share a frame. */
  lemma EscapeLatch(t: Tweaks, f: Frame)
    requires WellFormedFrame(f) && t.isInitialized && f.sample.Some?
    ensures var (r, inputs) := Update(t, f);
            var esc := r.settings.inputBindings.escape;
            && (esc.IsPressed() ==> r.escapeDown && KeyboardOf(inputs) == Some(KeyboardInput(f.escapeScan, {ScanCode})))
            && (!esc.IsPressed() && t.escapeDown && !esc.IsHeld() ==>
                  !r.escapeDown && KeyboardOf(inputs) == Some(KeyboardInput(f.escapeScan, {ScanCode, KeyUp})))
            && (!esc.IsPressed() && !(t.escapeDown && !esc.IsHeld()) ==> r.escapeDown == t.escapeDown && KeyboardOf(inputs).None?)
  {
    KeyboardOfUpdate(t, f);
  }

  /** The Escape logic does not depend on the mouse: two states that differ
      only in mode and mouse state emit the same keyboard input and reach the
      same Escape latch. */
  lemma EscapeIndependentOfMouse(t1: Tweaks, t2: Tweaks, f: Frame)
    requires WellFormedFrame(f) && t1.isInitialized && f.sample.Some?
    requires t2 == t1.(settings := t1.settings.(mouseSimulationMode := t2.settings.mouseSimulationMode),
                       mouseActive := t2.mouseActive, leftDown := t2.leftDown, rightDown := t2.rightDown)
    ensures Update(t1, f).0.escapeDown == Update(t2, f).0.escapeDown
    ensures KeyboardOf(Update(t1, f).1) == KeyboardOf(Update(t2, f).1)
  {
    KeyboardOfUpdate(t1, f);
    KeyboardOfUpdate(t2, f);
  }

  /** With simulation disabled, no mouse input is pressed or scrolled and the
      mouse stays inactive; only pending releases can still be emitted. */
  lemma DisabledModeEmitsOnlyReleases(t: Tweaks, f: Frame)
    requires WellFormedFrame(f) && t.isInitialized && f.sample.Some?
    requires t.settings.mouseSimulationMode == AlwaysDisabled
    ensures !Update(t, f).0.mouseActive
    ensures MouseOf(Update(t, f).1).Some? ==> MouseOf(Update(t, f).1).value.flags <= {LeftUp, RightUp}
  {
  }
}
