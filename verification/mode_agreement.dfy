/** The settings application and the API layer read the same mode setting.
    The two predicates the settings view shows (Settings.cs) describe what the
    layer's mode step (inputtweaks.cpp) does with it. */
module ModeAgreement {
  import opened Common
  import AppSettings
  import LayerSettings
  import opened InputTweaks

  /** A binding that was up and is now down. */
  const PressedBinding := LayerSettings.LayerBinding(Button, 0, true, false)

  /** A mode the settings view calls disabled never activates the simulated mouse. */
  lemma DisabledNeverActivates(mode: MouseSimulationMode, active: bool, toggle: LayerSettings.LayerBinding, foreground: bool)
    requires !AppSettings.IsMouseSimulationEnabled(mode)
    ensures !NextMouseActive(mode, active, toggle, foreground)
  {
  }

  /** Some situation activates the simulated mouse exactly in the modes the
      settings view calls enabled. */
  lemma EnabledIffCanActivate(mode: MouseSimulationMode, active: bool)
    ensures AppSettings.IsMouseSimulationEnabled(mode) <==>
              exists toggle: LayerSettings.LayerBinding, foreground: bool :: NextMouseActive(mode, active, toggle, foreground)
  {
    if AppSettings.IsMouseSimulationEnabled(mode) {
      var toggle := if mode == PressToToggle && active then LayerSettings.DefaultBinding else PressedBinding;
      assert NextMouseActive(mode, active, toggle, true);
    }
  }

  /** The settings view offers a binding exactly for the modes whose step
      depends on the toggle binding. */
  lemma BindingUsedIffModeNeedsIt(mode: MouseSimulationMode, active: bool, foreground: bool)
    ensures AppSettings.IsMouseSimulationEnabledWithInputBinding(mode) <==>
              exists t1: LayerSettings.LayerBinding, t2: LayerSettings.LayerBinding ::
                NextMouseActive(mode, active, t1, foreground) != NextMouseActive(mode, active, t2, foreground)
  {
    if AppSettings.IsMouseSimulationEnabledWithInputBinding(mode) {
      assert NextMouseActive(mode, active, PressedBinding, foreground)
             != NextMouseActive(mode, active, LayerSettings.DefaultBinding, foreground);
    }
  }
}
