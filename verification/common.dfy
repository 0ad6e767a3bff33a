/** Vocabulary shared by the settings application (C#) and the OpenXR API
    layer (C++): optional values, error results, device identifiers, the
    input types a binding can refer to and the mouse-simulation modes. */
module Common {

  /** A value that may be absent; stands for C# nullable values and null references. */
  datatype Option<+T> = None | Some(value: T)

  /** Success or an error message; stands for an exception thrown with a message. */
  datatype Result<+T, +E> = Ok(value: T) | Err(error: E)

  /** An opaque device instance identifier. The value 0 stands for Guid.Empty. */
  type Guid = nat

  const EmptyGuid: Guid := 0

  /** The physical source kinds a binding can refer to, in declaration order. */
  datatype InputType = Unset | Button | POV0 | POV1 | POV2 | POV3
  {
    predicate IsPov() {
      POV0? || POV1? || POV2? || POV3?
    }
  }

  /** The POV type at offset `k` from POV0 (C# `InputType.POV0 + k`). */
  function PovType(k: nat): (t: InputType)
    requires k < 4
    ensures t.IsPov()
    ensures PovIndex(t) == k
  {
    if k == 0 then POV0 else if k == 1 then POV1 else if k == 2 then POV2 else POV3
  }

  /** The offset of a POV type from POV0 (C++ `static_cast<int>(Type) - POV0`). */
  function PovIndex(t: InputType): (k: nat)
    requires t.IsPov()
    ensures k < 4
  {
    match t
    case POV0 => 0
    case POV1 => 1
    case POV2 => 2
    case POV3 => 3
  }

  /** The persistent part of a binding: its type and its value. */
  datatype BindingValue = BindingValue(inputType: InputType, value: int)

  /** The value every binding starts with and is reset to when cleared. */
  const UnsetBinding := BindingValue(Unset, -1)

  /** When the API layer turns controller input into mouse input. */
  datatype MouseSimulationMode = AlwaysDisabled | AlwaysEnabled | HoldToEnable | PressToToggle
}
