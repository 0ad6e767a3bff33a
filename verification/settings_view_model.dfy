/** The selected-device property of the settings view model
    (SettingsViewModel.cs): a selection is kept only if it names a device in
    the capture state machine's catalog, and is otherwise normalised to
    Guid.Empty, in both the settings and the state machine. */
module SettingsViewModel {
  import opened Common
  import opened AppSettings
  import opened InputPoller

  datatype ViewModel = ViewModel(settings: Settings, poller: Poller)

  /** The InputDeviceGuid getter: a plain projection of the stored settings,
      named so the setter's contract can speak of the property. */
  function InputDeviceGuid(vm: ViewModel): Guid {
    vm.settings.inputDeviceGuid
  }

  /** The setter. The boolean says whether a property-change notification fires. */
  function SetInputDeviceGuid(vm: ViewModel, value: Guid): (r: (ViewModel, bool))
    ensures var catalog := vm.poller.inputDeviceNames;
            value != EmptyGuid && value in catalog ==>
              r.0.poller.inputDeviceGuid == value && InputDeviceGuid(r.0) == value
              && r.0.settings.inputDeviceName == catalog[value]
    ensures var catalog := vm.poller.inputDeviceNames;
            !(value != EmptyGuid && value in catalog) ==>
              r.0.poller.inputDeviceGuid == EmptyGuid && InputDeviceGuid(r.0) == EmptyGuid
              && r.0.settings.inputDeviceName == ""
    ensures r.1 <==> InputDeviceGuid(vm) != value
    ensures r.0.poller == vm.poller.(inputDeviceGuid := r.0.poller.inputDeviceGuid)
    ensures r.0.settings == vm.settings.(inputDeviceGuid := r.0.settings.inputDeviceGuid,
                                         inputDeviceName := r.0.settings.inputDeviceName)
  {
    var previous := vm.settings.inputDeviceGuid;
    var stored :=
      if value != EmptyGuid && value in vm.poller.inputDeviceNames then
        ViewModel(vm.settings.(inputDeviceGuid := value, inputDeviceName := vm.poller.inputDeviceNames[value]),
                  vm.poller.(inputDeviceGuid := value))
      else
        ViewModel(vm.settings.(inputDeviceGuid := EmptyGuid, inputDeviceName := ""),
                  vm.poller.(inputDeviceGuid := EmptyGuid));
    (stored, previous != value)
  }

  /** The selection is consistent: settings and state machine agree, on
      Guid.Empty or on a device the catalog knows. */
  predicate SelectionConsistent(vm: ViewModel) {
    && vm.settings.inputDeviceGuid == vm.poller.inputDeviceGuid
    && (vm.poller.inputDeviceGuid == EmptyGuid || vm.poller.inputDeviceGuid in vm.poller.inputDeviceNames)
  }

  /** The constructor: loaded settings, or defaults, with the stored device
      passed back through the setter. */
  function Construct(loaded: Option<Settings>, poller: Poller): (vm: ViewModel)
    ensures SelectionConsistent(vm)
  {
    var settings := if loaded.Some? then loaded.value else DefaultSettings;
    SetInputDeviceGuid(ViewModel(settings, poller), settings.inputDeviceGuid).0
  }

  /** Every set leaves the selection consistent. */
  lemma SetKeepsSelectionConsistent(vm: ViewModel, value: Guid)
    ensures SelectionConsistent(SetInputDeviceGuid(vm, value).0)
  {
  }

  /** Setting the same value twice yields the same state as setting it once. */
  lemma SetIdempotent(vm: ViewModel, value: Guid)
    ensures var once := SetInputDeviceGuid(vm, value).0;
            SetInputDeviceGuid(once, value).0 == once
  {
  }

  /** The second of two equal sets notifies exactly when the first had to
      normalise the request to Guid.Empty. */
  lemma RepeatedSetNotifiesOnlyIfNormalised(vm: ViewModel, value: Guid)
    ensures var once := SetInputDeviceGuid(vm, value).0;
            SetInputDeviceGuid(once, value).1 <==> InputDeviceGuid(once) != value
  {
  }

  /** An unknown device stored in the settings file is normalised to
      Guid.Empty and its name cleared when the view model is built. */
  lemma ConstructNormalisesUnknownDevice(loaded: Settings, poller: Poller)
    requires loaded.inputDeviceGuid !in poller.inputDeviceNames
    ensures var vm := Construct(Some(loaded), poller);
            InputDeviceGuid(vm) == EmptyGuid && vm.poller.inputDeviceGuid == EmptyGuid
            && vm.settings.inputDeviceName == ""
  {
  }

  /** A known device stored in the settings file is selected in the state
      machine, and its name is refreshed from the catalog. */
  lemma ConstructKeepsKnownDevice(loaded: Settings, poller: Poller)
    requires loaded.inputDeviceGuid != EmptyGuid && loaded.inputDeviceGuid in poller.inputDeviceNames
    ensures var vm := Construct(Some(loaded), poller);
            InputDeviceGuid(vm) == loaded.inputDeviceGuid && vm.poller.inputDeviceGuid == loaded.inputDeviceGuid
            && vm.settings.inputDeviceName == poller.inputDeviceNames[loaded.inputDeviceGuid]
  {
  }
}
