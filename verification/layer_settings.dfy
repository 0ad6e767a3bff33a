/** The API layer's view of the settings (settings.h): the JSON string tables
    of the two enumerations, and the per-binding edge detector that turns
    successive joystick samples into "held" and "pressed". */
module LayerSettings {
  import opened Common

  /** A BYTE of `rgbButtons`. */
  type Byte = x: int | 0 <= x < 0x100

  /** A DWORD of `rgdwPOV`; a centred hat reads 0xFFFF_FFFF. */
  type Dword = x: int | 0 <= x < 0x1_0000_0000

  /** The part of DIJOYSTATE2 the layer reads: four POV hats and 128 buttons. */
  datatype JoyState2 = JoyState2(povs: seq<Dword>, buttons: seq<Byte>)
  {
    predicate WellFormed() {
      |povs| == 4 && |buttons| == 128
    }
  }

  const ButtonCount := 128
  const PovLimit := 36000

  /** A binding together with the edge detector's two flags. */
  datatype LayerBinding = LayerBinding(inputType: InputType, value: int, isDown: bool, wasDown: bool)
  {
    /** Whether the binding names a button or a hat angle that DIJOYSTATE2 can
        report: it is assigned, and its value indexes one of the 128 buttons or
        is a hat angle below 360 degrees. */
    function IsValid(): (r: bool)
      ensures r ==> inputType != Unset && 0 <= value
      ensures r && inputType == Button ==> value < ButtonCount
      ensures r && inputType.IsPov() ==> value < PovLimit
      ensures inputType == Button && 0 <= value < ButtonCount ==> r
      ensures inputType.IsPov() && 0 <= value < PovLimit ==> r
    {
      match inputType
      case Button => 0 <= value < ButtonCount
      case POV0 | POV1 | POV2 | POV3 => 0 <= value < PovLimit
      case Unset => false
    }

    /** The binding's source read as down in the latest update; every press is a hold. */
    function IsHeld(): (r: bool)
      ensures IsPressed() ==> r
    {
      isDown
    }

    /** The binding's source went from up to down in the latest update: a
        press is a change of reading. */
    function IsPressed(): (r: bool)
      ensures r ==> isDown != wasDown
    {
      !wasDown && isDown
    }

    /** Reads the binding's source in one sample; the previous reading becomes `wasDown`. */
    function Update(state: JoyState2): (r: LayerBinding)
      requires state.WellFormed()
      ensures r.inputType == inputType && r.value == value
      ensures r.wasDown == isDown
      ensures !IsValid() ==> !r.isDown
      ensures inputType == Button && IsValid() ==> (r.isDown <==> state.buttons[value] != 0)
      ensures inputType.IsPov() && IsValid() ==> (r.isDown <==> state.povs[PovIndex(inputType)] == value)
    {
      var down :=
        if !IsValid() then false
        else match inputType
          case Button => state.buttons[value] != 0
          case POV0 | POV1 | POV2 | POV3 => state.povs[PovIndex(inputType)] == value
          case Unset => false;
      this.(wasDown := isDown, isDown := down)
    }
  }

  /** A struct-initialised binding: Unset/-1, neither down nor previously down. */
  const DefaultBinding := LayerBinding(Unset, -1, false, false)

  datatype Bindings = Bindings(
    simulateMouse: LayerBinding,
    mouseLeftClick: LayerBinding,
    mouseRightClick: LayerBinding,
    mouseScrollUp: LayerBinding,
    mouseScrollDown: LayerBinding,
    escape: LayerBinding)
  {
    function All(): seq<LayerBinding> {
      [simulateMouse, mouseLeftClick, mouseRightClick, mouseScrollUp, mouseScrollDown, escape]
    }

    /** Updates all six bindings from one sample, in declaration order: each
        keeps its type and value, remembers its previous reading, and reads
        its own source in the sample. */
    function UpdateAll(state: JoyState2): (r: Bindings)
      requires state.WellFormed()
      ensures forall i :: 0 <= i < 6 ==>
                && r.All()[i].inputType == All()[i].inputType && r.All()[i].value == All()[i].value
                && r.All()[i].wasDown == All()[i].isDown
      ensures forall i :: 0 <= i < 6 ==> r.All()[i].isDown == All()[i].Update(state).isDown
    {
      Bindings(
        simulateMouse.Update(state),
        mouseLeftClick.Update(state),
        mouseRightClick.Update(state),
        mouseScrollUp.Update(state),
        mouseScrollDown.Update(state),
        escape.Update(state))
    }
  }

  const DefaultBindings := Bindings(DefaultBinding, DefaultBinding, DefaultBinding, DefaultBinding, DefaultBinding, DefaultBinding)

  /** The layer's settings. Its default mode is HoldToEnable, unlike the settings application's. */
  datatype Settings = Settings(
    mouseSimulationMode: MouseSimulationMode,
    mouseSimulationSensitivity: real,
    inputDeviceName: string,
    inputDeviceGuid: string,
    inputBindings: Bindings)

  const DefaultSettings := Settings(HoldToEnable, 50.0, "", "", DefaultBindings)

  /** The JSON table of InputType: Unset is written as the empty string, and
      the hat at offset k from POV0 as "POV" followed by the digit k. */
  function InputTypeToJson(t: InputType): (s: string)
    ensures s == "" <==> t == Unset
    ensures t.IsPov() ==> |s| == 4 && s[..3] == "POV" && s[3] == ('0' as int + PovIndex(t)) as char
  {
    match t
    case Unset => ""
    case Button => "Button"
    case POV0 => "POV0"
    case POV1 => "POV1"
    case POV2 => "POV2"
    case POV3 => "POV3"
  }

  /** Reading the table back; a string not in the table yields its first entry. */
  function InputTypeFromJson(s: string): (t: InputType)
    ensures InputTypeToJson(t) == s || t == Unset
  {
    if s == "Button" then Button
    else if s == "POV0" then POV0
    else if s == "POV1" then POV1
    else if s == "POV2" then POV2
    else if s == "POV3" then POV3
    else Unset
  }

  /** The JSON table of MouseSimulationMode: every mode is written as a
      non-empty string, and only AlwaysDisabled as the table's first entry. */
  function ModeToJson(m: MouseSimulationMode): (s: string)
    ensures s != ""
    ensures s == "AlwaysDisabled" <==> m == AlwaysDisabled
  {
    match m
    case AlwaysDisabled => "AlwaysDisabled"
    case AlwaysEnabled => "AlwaysEnabled"
    case HoldToEnable => "HoldToEnable"
    case PressToToggle => "PressToToggle"
  }

  /** Reading the mode table back; an unknown string yields its first entry. */
  function ModeFromJson(s: string): (m: MouseSimulationMode)
    ensures ModeToJson(m) == s || m == AlwaysDisabled
  {
    if s == "AlwaysEnabled" then AlwaysEnabled
    else if s == "HoldToEnable" then HoldToEnable
    else if s == "PressToToggle" then PressToToggle
    else AlwaysDisabled
  }

  /** Every input type survives writing and reading its table entry. */
  lemma InputTypeJsonRoundTrip(t: InputType)
    ensures InputTypeFromJson(InputTypeToJson(t)) == t
  {
  }

  /** The six table strings are distinct, and only Unset maps to the empty string. */
  lemma InputTypeJsonInjective(t1: InputType, t2: InputType)
    ensures InputTypeToJson(t1) == InputTypeToJson(t2) ==> t1 == t2
    ensures InputTypeToJson(t1) == "" <==> t1 == Unset
  {
    InputTypeJsonRoundTrip(t1);
    InputTypeJsonRoundTrip(t2);
  }

  lemma ModeJsonRoundTrip(m: MouseSimulationMode)
    ensures ModeFromJson(ModeToJson(m)) == m
  {
  }

  /** Unset is never valid, so an Unset binding is never down after an update. */
  lemma UnsetNeverDown(b: LayerBinding, state: JoyState2)
    requires state.WellFormed()
    requires b.inputType == Unset
    ensures !b.IsValid()
    ensures !b.Update(state).IsHeld() && !b.Update(state).IsPressed()
  {
  }

  /** A press is always also a hold. */
  lemma PressedImpliesHeld(b: LayerBinding)
    ensures b.IsPressed() ==> b.IsHeld()
  {
  }

  /** A binding cannot be pressed on two consecutive updates. */
  lemma NoPressOnConsecutiveUpdates(b: LayerBinding, s1: JoyState2, s2: JoyState2)
    requires s1.WellFormed() && s2.WellFormed()
    ensures !(b.Update(s1).IsPressed() && b.Update(s1).Update(s2).IsPressed())
  {
  }

  /** A binding is valid exactly when some well-formed sample reads it as down. */
  lemma ValidIffCanBeDown(b: LayerBinding)
    ensures b.IsValid() <==> exists s: JoyState2 :: s.WellFormed() && b.Update(s).isDown
  {
    if b.IsValid() {
      var centred: seq<Dword> := seq(4, _ => 0xFFFF_FFFF);
      var s: JoyState2;
      if b.inputType == Button {
        var buttons: seq<Byte> := seq(ButtonCount, i => if i == b.value then 1 else 0);
        s := JoyState2(centred, buttons);
      } else {
        var k := PovIndex(b.inputType);
        var povs: seq<Dword> := seq(4, i => if i == k then b.value else 0xFFFF_FFFF);
        s := JoyState2(povs, seq(ButtonCount, _ => 0));
      }
      assert s.WellFormed() && b.Update(s).isDown;
    }
  }

  /** The default binding is invalid and stays released whatever is sampled. */
  lemma DefaultBindingStaysReleased(state: JoyState2)
    requires state.WellFormed()
    ensures DefaultBinding.Update(state) == DefaultBinding
  {
  }
}
