# TruckSim VR Tweaks — a Dafny model of its input handling

TruckSim VR Tweaks has two parts. One is a Windows settings application
(C#, WPF) in which the user picks a game controller and binds its buttons
and POV hats to six actions: simulate mouse, left click, right click,
scroll up, scroll down and Escape. The other is an OpenXR API layer (C++)
loaded into Euro Truck Simulator 2 or American Truck Simulator, which reads
the same settings and turns controller input into synthesized mouse and
keyboard input while the player is in VR.

This project models the logic of both parts as immutable datatypes and pure
step functions, and proves what the code promises about them:

- `InputPoller` (`input_poller.dfy`) is the settings application's
  input-capture state machine. It holds at most one capture session, made of
  a target binding, a progress handler and a completion handler. Each timer
  tick samples the open device. The first POV hat that is not
  centred wins, else the first pressed button. A session ends on a
  detection, on a read failure, or after five seconds.
  - The controller is an oracle: `AcquireOracle` says whether creating and
    acquiring the device succeeds, and a tick's sample is `None` when the
    read throws.
  - The clock is an integer count of 100-nanosecond ticks.
  - Handlers are identifiers. Invoking one appends an `Event` to the log a
    step returns, so "at most once" and "after the state was cleared" can be
    stated.
- `PollerRuns` (`poller_runs.dfy`) covers whole runs of UI calls, device
  selections and timer firings. Over any run a completion handler fires at
  most as often as it was handed to `StartPolling`.
- `BindingControl` (`binding_control.dfy`) is the per-binding control of the
  settings view. It covers the assign button's text, and the clear and
  assign buttons together with the completion handler that writes a
  detected value into the binding.
- `SettingsViewModel` (`settings_view_model.dfy`) holds the selected-device
  property, which normalises any GUID the catalog does not know to
  Guid.Empty.
- `AppSettings` (`app_settings.dfy`) holds the application's settings
  record, its defaults and its two mode predicates.
- `Startup` (`startup.dfy`) covers the command-line parser, the launch
  decision, the choice of the game process to wait for, and the guard that
  disables the API layer on exit.
- `LayerSettings` (`layer_settings.dfy`) is the layer's settings. It holds
  the JSON string tables of the two enumerations and the per-binding edge
  detector: validity, held and pressed.
- `InputTweaks` (`input_tweaks.dfy`) is the layer's per-frame step. It
  covers the mouse-simulation mode switch, the click and Escape latches,
  the scroll wheel, and which inputs are sent.
- `ModeAgreement` (`mode_agreement.dfy`) relates the settings view's mode
  predicates to the layer's mode step.
- `Common` (`common.dfy`) and `Text` (`text.dfy`) are shared vocabulary.
  `Text` holds ASCII case folding and decimal rendering with its parser.

### Behaviour worth noting

- **Failed acquisition.** When `StartPolling` cannot acquire the device, the
  new completion handler is never stored and never called. Only a handler
  stored by an earlier session can run
  (`InputPoller.StartFailureRecordsNothing`).
- **No hardware.** With no controller attached, a start invokes no handler
  at all (`PollerRuns.NoHardwareScenario`).
  - There is no special case for the "<none>" entry. Guid.Empty goes to
    device creation like any other GUID, and the device layer decides.
- **Restart on the same binding.** `StartPolling` on the binding already
  targeted does not end the old session first. When acquisition succeeds it
  replaces the handlers and restarts the clock, and the old completion
  handler never runs (`InputPoller.RestartSameTargetDropsCompletion`). When
  acquisition fails, the old handler completes with no result
  (`InputPoller.StartFailureRecordsNothing`).
  - The completion guarantee is therefore "at most once per registration",
    not "exactly once per start".
  - The settings view never does this, because it stops instead when
    `IsPolling` holds.
- **Open device vs. selected device.** Right after a successful start the
  open device is the selected one (`InputPoller.StartPolling`). The
  selection can still change during a session, so the model does not keep
  this as an invariant.
- **Default mode.** The layer's settings default to `HoldToEnable`, while
  the application's default to `AlwaysDisabled`. Both defaults are
  modelled.
- **Field names.** `inputtweaks.cpp` names the toggle binding `ToggleMouse`
  and the mode `SimulatedMouseTrigger`. `SettingsViewModel.cs` also says
  `SimulatedMouseTrigger`. These are modelled as `SimulateMouse` and
  `MouseSimulationMode`, the names `settings.h` and `Settings.cs` declare.

## Model

| member | source | states |
|---|---|---|
| Common.PovType | TruckSimVRTweaks/InputPoller.cs:162 | `POV0 + i` is a POV type whose offset from POV0 is `i` |
| InputPoller.AddDevices | TruckSimVRTweaks/InputPoller.cs:38-43 | enumeration never removes a catalog entry |
| InputPoller.AddDevicesKeys | TruckSimVRTweaks/InputPoller.cs:38-43 | enumeration adds exactly the enumerated instance GUIDs as keys |
| InputPoller.AddDevicesKeepsOthers | TruckSimVRTweaks/InputPoller.cs:38-43 | an entry no enumerated device names keeps its name |
| InputPoller.AddDevicesLastWins | TruckSimVRTweaks/InputPoller.cs:38-43 | every enumerated device is in the catalog, and for a repeated instance GUID the last name wins |
| InputPoller.Create | TruckSimVRTweaks/InputPoller.cs:13-52 | a new poller is idle with Guid.Empty selected and no open device; DirectInput is available iff enumeration succeeded; on failure the catalog is exactly Guid.Empty ↦ "<none>"; Guid.Empty is always in the catalog |
| InputPoller.CreateCatalog | TruckSimVRTweaks/InputPoller.cs:14-17 | after a successful enumeration the catalog's keys are Guid.Empty and the enumerated GUIDs, and "<none>" keeps its name unless a device reports Guid.Empty |
| InputPoller.CreateEstablishesInv | TruckSimVRTweaks/InputPoller.cs:13-52 | the constructed poller satisfies the invariant: catalog holds Guid.Empty, target set iff timer running, no handlers without a target, running timer implies an open device, no DirectInput implies no device |
| InputPoller.StopWithResult | TruckSimVRTweaks/InputPoller.cs:88-98 | the private stop clears target, both handlers and the timer, changes nothing else, and invokes the previously stored completion handler once with the given result; that handler observes exactly the cleared poller the stop returns |
| InputPoller.TryAcquire | TruckSimVRTweaks/InputPoller.cs:100-146 | only the open device can change; without DirectInput acquisition fails; success means the selected device is open and acquired; a device open for another GUID is released and, if creation fails, nothing stays open |
| InputPoller.StartPolling | TruckSimVRTweaks/InputPoller.cs:59-78 | catalog and selection are untouched; if the timer runs, the session targets `b` with the given handlers, the given start time and the selected device open; otherwise the poller is idle; at most one handler runs, and it is the previously stored completion handler, with no result |
| InputPoller.StopPolling | TruckSimVRTweaks/InputPoller.cs:80-86 | a no-op unless `b` is the target; otherwise the poller becomes idle and the stored completion handler runs with no result |
| InputPoller.IsPolling | TruckSimVRTweaks/InputPoller.cs:54-57 | a polled binding is the target, and an idle poller polls nothing |
| InputPoller.Detect | TruckSimVRTweaks/InputPoller.cs:157-177 | the result is the lowest-index non-centred POV with its angle, else the lowest-index pressed button (only when every POV is centred), else none exactly when nothing is actuated |
| InputPoller.Scan | TruckSimVRTweaks/InputPoller.cs:150-177 | the two breaking loops compute exactly the declarative detection |
| InputPoller.Tick | TruckSimVRTweaks/InputPoller.cs:148-202 | without DirectInput or an open device nothing happens; selection, device and start time never change; the poller either stays as it was or becomes idle; at most one handler runs, a completion only after clearing and a progress report only with a positive remaining time while the session continues; a tick is taken as one step, without the nested ticks an error dialog can dispatch (see Left out) |
| InputPoller.StartPreservesInv | TruckSimVRTweaks/InputPoller.cs:59-78 | StartPolling preserves the invariant |
| InputPoller.StopPreservesInv | TruckSimVRTweaks/InputPoller.cs:80-98 | StopPolling preserves the invariant |
| InputPoller.TickPreservesInv | TruckSimVRTweaks/InputPoller.cs:148-202 | a timer tick preserves the invariant |
| InputPoller.IsPollingIffTarget | TruckSimVRTweaks/InputPoller.cs:54-57 | in a reachable state, `IsPolling(b)` holds iff `b` is the target |
| InputPoller.StartSupersedesOtherTarget | TruckSimVRTweaks/InputPoller.cs:61-64 | starting on another binding first completes the current session's handler exactly once with no result, and invokes nothing else |
| InputPoller.StartFailureRecordsNothing | TruckSimVRTweaks/InputPoller.cs:66-77 | when acquisition fails the poller is idle, `b` is not polled, and only a previously stored completion handler runs |
| InputPoller.NoDirectInputNeverPolls | TruckSimVRTweaks/InputPoller.cs:100-105 | without DirectInput no capture ever starts and an idle poller invokes nothing |
| InputPoller.StartSuccess | TruckSimVRTweaks/InputPoller.cs:66-73 | when the selected device is (or becomes) open and acquisition succeeds, `b` is polled with the given handlers and start time |
| InputPoller.RestartSameTargetDropsCompletion | TruckSimVRTweaks/InputPoller.cs:59-73 | a successful restart on the current target invokes no handler: the old completion handler is dropped |
| InputPoller.StopTwiceCompletesOnce | TruckSimVRTweaks/InputPoller.cs:80-98 | a second stop changes nothing and invokes nothing; the first invokes at most one handler |
| InputPoller.TickDetection | TruckSimVRTweaks/InputPoller.cs:185-188 | a detection makes the poller idle and completes with the detected value |
| InputPoller.TickWithoutDetection | TruckSimVRTweaks/InputPoller.cs:189-200 | without a detection the progress handler gets `start + 5 s − now` iff that is positive and the state is kept; otherwise the session completes with no result |
| InputPoller.TickReadFailure | TruckSimVRTweaks/InputPoller.cs:179-183 | a read failure makes the poller idle, completes with no result and invokes nothing else, when no nested tick runs while the error dialog is open (see Left out) |
| InputPoller.PovBeforeButtons | TruckSimVRTweaks/InputPoller.cs:157-177 | any non-centred POV makes the detection a POV, with an index at most that POV's |
| InputPoller.ProgressDecreases | TruckSimVRTweaks/InputPoller.cs:191-195 | two successive progress reports of one session under an advancing clock carry strictly decreasing remaining times |
| PollerRuns.StepConsumesRegistration | TruckSimVRTweaks/InputPoller.cs:59-98 | one call invokes a handler as completion at most as often as it gives up a registration of that handler |
| PollerRuns.CompletionsBoundedByRegistrations | TruckSimVRTweaks/InputPoller.cs:88-98 | over any run a handler completes at most as often as it was stored or handed to StartPolling |
| PollerRuns.CompletionAtMostOnce | TruckSimVRTweaks/InputPoller.cs:88-98 | a handler registered at most once completes at most once |
| PollerRuns.CompletionSeesClearedState | TruckSimVRTweaks/InputPoller.cs:59-98 | a completion handler observes a poller with no target, no handlers and the timer stopped; for a stop or a timer firing that is exactly the state the call returns, for a start the old state with only its session (and possibly the device) cleared |
| PollerRuns.HandlersSeeClearedPoller | TruckSimVRTweaks/InputPoller.cs:88-98 | in any run every completion handler observes a poller with no target and no handlers, and every progress report carries a positive remaining time |
| PollerRuns.RunPreservesInv | TruckSimVRTweaks/InputPoller.cs:54-202 | every state a run reaches satisfies the invariant |
| PollerRuns.NoHardwareScenario | TruckSimVRTweaks/InputPoller.cs:100-130 | with no controller attached the catalog is only "<none>", a start whose device creation fails polls nothing and invokes nothing |
| PollerRuns.FirstTickButtonScenario | TruckSimVRTweaks/InputPoller.cs:167-188 | button 0 pressed with all hats centred on the first tick completes with (Button, 0) and reports no progress |
| AppSettings.IsMouseSimulationEnabled | TruckSimVRTweaks/Settings.cs:18-21 | simulation is enabled in every mode except AlwaysDisabled |
| AppSettings.IsMouseSimulationEnabledWithInputBinding | TruckSimVRTweaks/Settings.cs:23-25 | the view offers the toggle binding exactly for the enabled modes other than AlwaysEnabled |
| AppSettings.ModePredicates | TruckSimVRTweaks/Settings.cs:18-25 | simulation is enabled iff the mode is not AlwaysDisabled; it uses a binding iff the mode is HoldToEnable or PressToToggle, which implies enabled |
| AppSettings.DefaultSettingsAreBlank | TruckSimVRTweaks/Settings.cs:8-42 | fresh settings: simulation disabled, sensitivity 50, no device name, Guid.Empty, no game path or arguments, all six bindings Unset/-1 |
| BindingControl.SecondsShown | TruckSimVRTweaks/InputBindingControl.xaml.cs:59-62 | the countdown is the ceiling of the remaining seconds |
| BindingControl.CountdownBounded | TruckSimVRTweaks/InputBindingControl.xaml.cs:59-62 | within a five-second capture the countdown shows 1 to 5 |
| BindingControl.TypeName | TruckSimVRTweaks/InputBindingControl.xaml.cs:74-75 | the printed enum name of a binding's type is a non-empty word without spaces |
| BindingControl.DirectionSuffix | TruckSimVRTweaks/InputBindingControl.xaml.cs:77-92 | the direction suffix is empty or starts with a space |
| BindingControl.BindingText | TruckSimVRTweaks/InputBindingControl.xaml.cs:74-94 | the text starts with "Type Value" and has more iff the binding is a POV at exactly 0/9000/18000/27000, in which case the rest is " (Up)", " (Right)", " (Down)" or " (Left)" |
| BindingControl.TypeNameInjective | TruckSimVRTweaks/InputBindingControl.xaml.cs:74-75 | the six enum names printed for a binding's type are distinct |
| BindingControl.BindingTextInjective | TruckSimVRTweaks/InputBindingControl.xaml.cs:74-94 | different assigned bindings never show the same text |
| BindingControl.AssignButtonText | TruckSimVRTweaks/InputBindingControl.xaml.cs:50-98 | no content iff no binding; with a remaining time "Waiting for input... (n)"; otherwise "<unassigned>" for Unset and the binding text for the rest |
| BindingControl.AssignButtonStatesDistinct | TruckSimVRTweaks/InputBindingControl.xaml.cs:50-70 | the countdown text, "<unassigned>" and the text of any binding never coincide |
| BindingControl.IdleLabelDeterminesBinding | TruckSimVRTweaks/InputBindingControl.xaml.cs:50-98 | outside a capture two bindings showing the same label are equal or both unassigned |
| BindingControl.Deliver | TruckSimVRTweaks/InputBindingControl.xaml.cs:126-135 | delivering handler invocations keeps the set of bindings, and leaves every binding alone when no completion carries a result |
| BindingControl.ClearClicked | TruckSimVRTweaks/InputBindingControl.xaml.cs:100-110 | after clear the binding is Unset/-1 and not polled, other bindings are unchanged, and a capture of it was stopped first |
| BindingControl.AssignClicked | TruckSimVRTweaks/InputBindingControl.xaml.cs:112-137 | a click while polling this binding stops the capture; otherwise it starts one on this binding or leaves the poller idle; bindings are unchanged |
| BindingControl.TimerTick | TruckSimVRTweaks/InputBindingControl.xaml.cs:126-135 | a tick with its handlers delivered keeps the set of bindings |
| BindingControl.ClearPreservesUiInv | TruckSimVRTweaks/InputBindingControl.xaml.cs:100-110 | clear keeps every session registered under its own binding's handlers |
| BindingControl.AssignPreservesUiInv | TruckSimVRTweaks/InputBindingControl.xaml.cs:112-137 | assign keeps every session registered under its own binding's handlers |
| BindingControl.TickPreservesUiInv | TruckSimVRTweaks/InputPoller.cs:148-202 | a timer tick keeps every session registered under its own binding's handlers |
| BindingControl.DetectionAssignsBinding | TruckSimVRTweaks/InputBindingControl.xaml.cs:126-135 | a detection writes the detected type and value into the captured binding only and ends its capture |
| BindingControl.NoResultLeavesBindings | TruckSimVRTweaks/InputBindingControl.xaml.cs:126-135 | a tick without a result (progress, time-out or read failure) changes no binding |
| SettingsViewModel.SetInputDeviceGuid | TruckSimVRTweaks/SettingsViewModel.cs:33-54 | a known non-empty GUID is stored in settings and poller with the catalog's name; anything else stores Guid.Empty and ""; it notifies iff the old value differs from the requested one; nothing else changes |
| SettingsViewModel.Construct | TruckSimVRTweaks/SettingsViewModel.cs:82-83 | the built view model's settings and poller agree on a device that is Guid.Empty or in the catalog |
| SettingsViewModel.SetKeepsSelectionConsistent | TruckSimVRTweaks/SettingsViewModel.cs:35-48 | after any set, settings and poller agree on Guid.Empty or a catalog key |
| SettingsViewModel.SetIdempotent | TruckSimVRTweaks/SettingsViewModel.cs:35-48 | setting the same value twice gives the state of setting it once |
| SettingsViewModel.RepeatedSetNotifiesOnlyIfNormalised | TruckSimVRTweaks/SettingsViewModel.cs:35-54 | a repeated set notifies again exactly when the first set normalised the request |
| SettingsViewModel.ConstructNormalisesUnknownDevice | TruckSimVRTweaks/SettingsViewModel.cs:82-83 | a loaded GUID unknown to the catalog becomes Guid.Empty with an empty name |
| SettingsViewModel.ConstructKeepsKnownDevice | TruckSimVRTweaks/SettingsViewModel.cs:82-83 | a loaded known GUID is selected in the poller and its name refreshed from the catalog |
| Startup.Decide | TruckSimVRTweaks/App.xaml.cs:44-51 | a missing or empty game path shows the settings view; otherwise a silent launch with that path, the arguments or "", and the wait flag |
| Startup.ParseFrom | TruckSimVRTweaks/App.xaml.cs:22-42 | an error is one of the two missing-value messages or "Unknown argument: " with a token of the queue; a changed game path or game arguments is the token right after a matching flag; the wait flag only turns on, and only for a -waitforexit token |
| Startup.ParseArguments | TruckSimVRTweaks/App.xaml.cs:18-42 | no arguments give no options; a game path read follows a -gamepath flag in the arguments |
| Startup.OnStartup | TruckSimVRTweaks/App.xaml.cs:22-51 | start-up fails exactly when parsing does, with the parser's message; no arguments show the settings view; a silent launch has a non-empty path that follows a -gamepath flag |
| Startup.OnStartupFormat | TruckSimVRTweaks/App.xaml.cs:22-51 | start-up on any options written as flags does what the launch decision says for those options |
| Startup.ParseFromAppend | TruckSimVRTweaks/App.xaml.cs:22-42 | the argument loop is compositional: the rest of the queue is parsed on top of what a prefix produced |
| Startup.FlagsAreLowerCase | TruckSimVRTweaks/App.xaml.cs:25-35 | each flag is written in lower case, so it matches itself after case folding |
| Startup.FormatRoundTrip | TruckSimVRTweaks/App.xaml.cs:22-42 | any options, written as flags, parse back to the same options |
| Startup.LaterGamePathWins | TruckSimVRTweaks/App.xaml.cs:27-29 | a later -gamepath in any letter case overrides the earlier value and takes the next token verbatim |
| Startup.LaterGameArgsWins | TruckSimVRTweaks/App.xaml.cs:31-33 | a later -gameargs in any letter case overrides the earlier value and takes the next token verbatim |
| Startup.WaitForExitIdempotent | TruckSimVRTweaks/App.xaml.cs:35-37 | -waitforexit only sets its flag, and repeating it changes nothing |
| Startup.MissingValueIsError | TruckSimVRTweaks/App.xaml.cs:27-33 | a trailing -gamepath or -gameargs is an error |
| Startup.UnknownArgumentIsError | TruckSimVRTweaks/App.xaml.cs:39-40 | any other token stops parsing with "Unknown argument: " and the token as given |
| Startup.ShortcutArgumentsStartSilently | TruckSimVRTweaks/SettingsViewModel.cs:146 | the four tokens the shortcut's argument string intends (-gamepath, the path, -gameargs, the arguments) start the game silently with those values, without waiting |
| Startup.FindProcess | TruckSimVRTweaks/App.xaml.cs:147-176 | none for an empty list; else the first process whose path equals the preferred path ignoring case; else the first process |
| Startup.Matches | TruckSimVRTweaks/App.xaml.cs:159-160 | a readable path equal to the preferred one matches, and a matching path is readable and as long as the preferred one |
| Startup.InstanceCount | TruckSimVRTweaks/App.xaml.cs:178-198 | the count is at most the number of processes |
| Startup.ShouldDisableApiLayer | TruckSimVRTweaks/App.xaml.cs:57-60 | the API layer is disabled iff no two listed processes run this executable (ignoring case, null equal to null) |
| Startup.AtMostOneIffNoPair | TruckSimVRTweaks/App.xaml.cs:186-189 | at most one instance is counted iff no two listed processes match |
| Startup.CountZeroIffNone | TruckSimVRTweaks/App.xaml.cs:186-189 | the count is zero iff no listed process runs this executable |
| Text.Lower | TruckSimVRTweaks/App.xaml.cs:25 | case folding keeps the length, leaves no upper-case letter, keeps every other character and moves each upper-case letter to its lower-case partner |
| Text.LowerIdempotent | TruckSimVRTweaks/App.xaml.cs:25 | folding an already folded string changes nothing |
| Text.EqualsIgnoreCase | TruckSimVRTweaks/App.xaml.cs:160 | equal strings compare equal; strings compare equal iff they have the same length and agree position by position after case folding |
| Text.NullableEqualsIgnoreCase | TruckSimVRTweaks/App.xaml.cs:186-189 | two nulls are equal, a null and a string are not, two strings compare ignoring case |
| Text.IntToDecimal | TruckSimVRTweaks/InputBindingControl.xaml.cs:74-75 | a non-empty rendering without spaces or parentheses: digits for a non-negative value, a minus sign and digits for a negative one |
| Text.NatToDecimalRoundTrip | TruckSimVRTweaks/InputBindingControl.xaml.cs:74-75 | a rendered natural number parses back to itself |
| Text.IntToDecimalRoundTrip | TruckSimVRTweaks/InputBindingControl.xaml.cs:74-75 | a rendered integer, possibly negative, parses back to itself |
| Text.IntToDecimalInjective | TruckSimVRTweaks/InputBindingControl.xaml.cs:74-75 | distinct integers render to distinct strings |
| LayerSettings.LayerBinding.Update | XR_APILAYER_NOVENDOR_trucksim_vr_tweaks/settings.h:34-57 | update keeps type and value, moves the old down state to `wasDown`; an invalid binding is not down; a valid button is down iff its byte is nonzero; a valid POVk is down iff hat k reads exactly its value |
| LayerSettings.LayerBinding.IsValid | XR_APILAYER_NOVENDOR_trucksim_vr_tweaks/settings.h:59-73 | a binding is valid iff it is a button with 0 ≤ value < 128 or a POV with 0 ≤ value < 36000; Unset is never valid |
| LayerSettings.ValidIffCanBeDown | XR_APILAYER_NOVENDOR_trucksim_vr_tweaks/settings.h:34-73 | a binding is valid exactly when some well-formed sample reads it as down |
| LayerSettings.LayerBinding.IsHeld | XR_APILAYER_NOVENDOR_trucksim_vr_tweaks/settings.h:75-77 | every pressed binding is held |
| LayerSettings.LayerBinding.IsPressed | XR_APILAYER_NOVENDOR_trucksim_vr_tweaks/settings.h:79-81 | a press is a change of the reading since the previous update |
| LayerSettings.Bindings.UpdateAll | XR_APILAYER_NOVENDOR_trucksim_vr_tweaks/inputtweaks.cpp:102-107 | each of the six bindings keeps its type and value, remembers its previous reading and reads its own source in the one sample |
| LayerSettings.InputTypeToJson | XR_APILAYER_NOVENDOR_trucksim_vr_tweaks/settings.h:19-27 | only Unset is written as "", and the hat at offset k as "POV" followed by the digit k |
| LayerSettings.ModeToJson | XR_APILAYER_NOVENDOR_trucksim_vr_tweaks/settings.h:9-15 | every mode is written as a non-empty string, and only AlwaysDisabled as the first table entry, the one unknown strings read back as |
| LayerSettings.InputTypeFromJson | XR_APILAYER_NOVENDOR_trucksim_vr_tweaks/settings.h:19-27 | a string reads as the type whose table entry it is, or as Unset |
| LayerSettings.ModeFromJson | XR_APILAYER_NOVENDOR_trucksim_vr_tweaks/settings.h:9-15 | a string reads as the mode whose table entry it is, or as AlwaysDisabled |
| LayerSettings.InputTypeJsonRoundTrip | XR_APILAYER_NOVENDOR_trucksim_vr_tweaks/settings.h:19-27 | every input type survives writing and reading its table entry |
| LayerSettings.InputTypeJsonInjective | XR_APILAYER_NOVENDOR_trucksim_vr_tweaks/settings.h:19-27 | the six table strings are distinct, and only Unset maps to "" |
| LayerSettings.ModeJsonRoundTrip | XR_APILAYER_NOVENDOR_trucksim_vr_tweaks/settings.h:9-15 | every mode survives writing and reading its table entry |
| LayerSettings.UnsetNeverDown | XR_APILAYER_NOVENDOR_trucksim_vr_tweaks/settings.h:59-73 | Unset is never valid, so an Unset binding is never held or pressed |
| LayerSettings.PressedImpliesHeld | XR_APILAYER_NOVENDOR_trucksim_vr_tweaks/settings.h:75-81 | a pressed binding is held |
| LayerSettings.NoPressOnConsecutiveUpdates | XR_APILAYER_NOVENDOR_trucksim_vr_tweaks/settings.h:34-81 | a binding is never pressed on two consecutive updates |
| LayerSettings.DefaultBindingStaysReleased | XR_APILAYER_NOVENDOR_trucksim_vr_tweaks/settings.h:29-57 | the default Unset/-1 binding starts released and stays so whatever is sampled |
| InputTweaks.NextMouseActive | XR_APILAYER_NOVENDOR_trucksim_vr_tweaks/inputtweaks.cpp:109-127 | AlwaysDisabled: inactive; AlwaysEnabled: active iff the game is in the foreground; HoldToEnable: active iff the toggle is held; PressToToggle: flips iff the toggle is pressed |
| InputTweaks.FlagSet | XR_APILAYER_NOVENDOR_trucksim_vr_tweaks/inputtweaks.cpp:130-172 | each mouse flag is set iff its condition holds, and the word is empty iff no condition holds |
| InputTweaks.ClickStep | XR_APILAYER_NOVENDOR_trucksim_vr_tweaks/inputtweaks.cpp:133-170 | a button goes down iff active and pressed, goes up iff latched and no longer held, and stays latched iff latched or pressed and still held |
| InputTweaks.MouseStep | XR_APILAYER_NOVENDOR_trucksim_vr_tweaks/inputtweaks.cpp:129-170 | the DOWN, UP, wheel and move flags, the wheel delta, the movement and both new latches, each in terms of the mode and the bindings |
| InputTweaks.EscapeStep | XR_APILAYER_NOVENDOR_trucksim_vr_tweaks/inputtweaks.cpp:176-186 | a press gives key-down and latches; else a latched key no longer held gives key-up and unlatches; else an empty input and an unchanged latch |
| InputTweaks.Emit | XR_APILAYER_NOVENDOR_trucksim_vr_tweaks/inputtweaks.cpp:172-190 | an input is sent iff it carries a flag, a scan code or a movement; at most two inputs are sent |
| InputTweaks.Update | XR_APILAYER_NOVENDOR_trucksim_vr_tweaks/inputtweaks.cpp:85-198 | an uninitialized layer or a failed read changes nothing and sends nothing; initialization, handles and mode never change; only carrying inputs are sent |
| InputTweaks.InitialIsInert | XR_APILAYER_NOVENDOR_trucksim_vr_tweaks/inputtweaks.h:17-27 | a fresh layer is uninitialized with null handles, inactive mouse and all latches up, and its update does nothing |
| InputTweaks.LatchesImplyHeld | XR_APILAYER_NOVENDOR_trucksim_vr_tweaks/inputtweaks.cpp:133-186 | after every successful frame each latch implies its binding is held |
| InputTweaks.FrameModeStep | XR_APILAYER_NOVENDOR_trucksim_vr_tweaks/inputtweaks.cpp:102-127 | over a whole frame the mouse becomes active as the mode dictates from the freshly updated toggle binding |
| InputTweaks.ClickLatches | XR_APILAYER_NOVENDOR_trucksim_vr_tweaks/inputtweaks.cpp:133-170 | an active press sends DOWN and latches; a latched button no longer held sends UP and unlatches in any mode; DOWN and UP for one button never share a frame |
| InputTweaks.ScrollDownOverridesUp | XR_APILAYER_NOVENDOR_trucksim_vr_tweaks/inputtweaks.cpp:143-151 | with both scroll bindings pressed while active, the wheel delta is −120 |
| InputTweaks.EscapeLatch | XR_APILAYER_NOVENDOR_trucksim_vr_tweaks/inputtweaks.cpp:176-190 | over a whole frame: key-down and latch on a press, key-up and unlatch on release of a latched key, no keyboard input and no latch change otherwise |
| InputTweaks.EscapeIndependentOfMouse | XR_APILAYER_NOVENDOR_trucksim_vr_tweaks/inputtweaks.cpp:176-190 | the Escape output and latch do not depend on the mode or the mouse state |
| InputTweaks.DisabledModeEmitsOnlyReleases | XR_APILAYER_NOVENDOR_trucksim_vr_tweaks/inputtweaks.cpp:109-170 | with simulation disabled the mouse stays inactive and only button releases can be sent |
| ModeAgreement.DisabledNeverActivates | TruckSimVRTweaks/Settings.cs:18-21 | a mode the settings view calls disabled never activates the layer's simulated mouse |
| ModeAgreement.EnabledIffCanActivate | TruckSimVRTweaks/Settings.cs:18-21 | a mode is called enabled iff some toggle state and foreground state activate the simulated mouse |
| ModeAgreement.BindingUsedIffModeNeedsIt | TruckSimVRTweaks/Settings.cs:23-25 | the settings view offers a binding exactly for the modes whose step depends on the toggle binding |

## Left out

- Device I/O (`DirectInput8Create`, `GetDevices`, `CreateDevice`, `SetCooperativeLevel`, `SetDataFormat`, `Acquire`, `GetCurrentJoystickState`, `GetDeviceState`) is replaced by oracle inputs. Device disposal and `Unacquire` are not modelled beyond "no device open".
- `DispatcherTimer` and `DateTime.UtcNow` become explicit timer-firing steps and an integer clock. The 1/60 s interval is not modelled; the timer fires whenever the run says so while it is enabled.
- The `DateTime` range and its overflow are not modelled; the clock is an unbounded integer.
- `MessageBoxUtil` dialogs are modal: `MessageBox.Show` runs a nested message loop that keeps dispatching timer ticks while the dialog is open. The model takes every call as one step and does not model what runs inside such a loop; the next three lines say what this leaves out.
- InputPoller.Tick: a read failure shows its dialog before stopping the session, with the timer still enabled. Nested ticks can then report progress, complete the session with a detected value, time out, or fail again and stack a second dialog, all before the outer stop runs. The model treats a tick as atomic, so "at most one handler runs" is promised only for a tick during which no nested tick runs.
- InputPoller.TickReadFailure: "completes with no result" holds when no nested tick runs while the dialog is open. A nested detection can complete the session first with its result, and the outer stop then finds no handler to invoke.
- InputPoller.TryAcquire: the dialogs on a failed device creation or acquisition open while the timer may still run, when a capture restarts on the binding it already targets. Nested ticks of the old session inside those dialogs are not modelled.
- Handlers are not reentrant in the model. A handler that calls back into the poller while it runs is not covered.
- InputPoller.Tick: requires a sample with at most four POV hats, for the same reason as the next line.
- InputPoller.Detect: requires at most four POV hats, the number a Vortice `JoystickState` reports. An index past POV3 names no `InputType` member.
- BindingControl.SecondsShown: computes the ceiling on integer ticks instead of `Math.Ceiling` on a double. The "-0" text the invariant format could print for a negative remaining time is not modelled; the poller only reports positive times.
- BindingControl.ClearClicked, BindingControl.AssignClicked: require the binding to exist, because the `InputBinding` property is declared non-nullable. A null binding (a `null` in the settings file) is not modelled: clear would throw at once, while assign would start a capture whose target is null.
- InputPoller.StartPolling: a capture whose target is null is not modelled. It runs the timer with no target, so the poller's "target set iff timer running" invariant does not hold for it, and its completion throws when it writes into the null binding.
- WPF presentation (font weight, opacity, dependency properties, property-change notifications of `Settings` itself) is left out. Only the setter's own notification is modelled.
- Case-insensitive comparison (`ToLowerInvariant`, `OrdinalIgnoreCase`) is modelled as ASCII case folding. Non-ASCII letters compare as distinct.
- JSON loading and saving in both parts, `JsonStringGuidConverter` and the nlohmann machinery are left out. Only the two enum string tables of `settings.h` are modelled.
- `InputTweaks::initialize` and `enumDevicesCallback` (loading settings, opening the device by GUID or by name) are left out; `isInitialized` and the handles are state the model takes as given.
- Mouse motion in `inputtweaks.cpp` (NaN checks, sensitivity scaling, `lround`, the pitch/yaw history) is replaced by an optional pair of rounded deltas per frame.
- `isGameOnForeground` becomes a boolean frame input; `MapVirtualKey` becomes the frame's Escape scan code; `SendInput` and its failure logging become the returned input list.
- `ApiLayerManager` (registry and file checks), the Steam shortcut view and view model, desktop shortcut creation, `BrowseGamePath`, `PlayGame`, `Process.Start`, the game-wait timer callback of `StartSilently` and `HandleUnhandledException` are process, registry and UI plumbing and are left out.
- Startup.FindProcess, Startup.InstanceCount: a process's main-module path is an input, `None` when `MainModule` is null. Reading `MainModule` can also throw (access denied, a 32/64-bit mismatch, a process that has exited); that exception escapes the game-wait timer callback and `OnExit`, where it skips disabling the API layer. The thrown path is not modelled. Process enumeration and disposal are left out.
- Startup.ShortcutArgumentsStartSilently: is stated on the four tokens the shortcut intends. The shortcut stores one string with both values in double quotes, and Windows splits it into exactly those tokens only when neither value contains `"` and the values do not end in `\`. Command-line splitting is not modelled.
