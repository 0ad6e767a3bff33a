/** The settings application's configuration record (Settings.cs): its
    defaults and the two mode predicates the settings view binds to. */
module AppSettings {
  import opened Common

  datatype InputBindings = InputBindings(
    simulateMouse: BindingValue,
    mouseLeftClick: BindingValue,
    mouseRightClick: BindingValue,
    mouseScrollUp: BindingValue,
    mouseScrollDown: BindingValue,
    escape: BindingValue)
  {
    function All(): seq<BindingValue> {
      [simulateMouse, mouseLeftClick, mouseRightClick, mouseScrollUp, mouseScrollDown, escape]
    }
  }

  datatype Settings = Settings(
    mouseSimulationMode: MouseSimulationMode,
    mouseSimulationSensitivity: real,
    inputDeviceName: string,
    inputDeviceGuid: Guid,
    inputBindings: InputBindings,
    gamePath: string,
    gameArguments: string)

  /** Six freshly constructed bindings. */
  const DefaultInputBindings := InputBindings(UnsetBinding, UnsetBinding, UnsetBinding, UnsetBinding, UnsetBinding, UnsetBinding)

  /** A freshly constructed Settings object. */
  const DefaultSettings := Settings(AlwaysDisabled, 50.0, "", EmptyGuid, DefaultInputBindings, "", "")

  /** The settings view's "enabled" flag: every mode except AlwaysDisabled. */
  function IsMouseSimulationEnabled(mode: MouseSimulationMode): (r: bool)
    ensures r <==> mode != AlwaysDisabled
  {
    mode == AlwaysEnabled || mode == HoldToEnable || mode == PressToToggle
  }

  /** Whether the view offers the toggle binding: an enabled mode other than AlwaysEnabled. */
  function IsMouseSimulationEnabledWithInputBinding(mode: MouseSimulationMode): (r: bool)
    ensures r <==> IsMouseSimulationEnabled(mode) && mode != AlwaysEnabled
  {
    mode == HoldToEnable || mode == PressToToggle
  }

  /** Simulation is enabled in every mode except AlwaysDisabled, and a mode
      that uses the toggle binding is in particular an enabled mode. */
  lemma ModePredicates(mode: MouseSimulationMode)
    ensures IsMouseSimulationEnabled(mode) <==> mode != AlwaysDisabled
    ensures IsMouseSimulationEnabledWithInputBinding(mode) <==> mode !in {AlwaysDisabled, AlwaysEnabled}
    ensures IsMouseSimulationEnabledWithInputBinding(mode) ==> IsMouseSimulationEnabled(mode)
  {
  }

  /** Fresh settings have simulation switched off, no device, no game, and
      every one of the six bindings unassigned. */
  lemma DefaultSettingsAreBlank()
    ensures !IsMouseSimulationEnabled(DefaultSettings.mouseSimulationMode)
    ensures DefaultSettings.inputDeviceGuid == EmptyGuid && DefaultSettings.inputDeviceName == ""
    ensures DefaultSettings.gamePath == "" && DefaultSettings.gameArguments == ""
    ensures DefaultSettings.mouseSimulationSensitivity == 50.0
    ensures |DefaultSettings.inputBindings.All()| == 6
    ensures forall i :: 0 <= i < 6 ==> DefaultSettings.inputBindings.All()[i] == BindingValue(Unset, -1)
  {
  }
}
