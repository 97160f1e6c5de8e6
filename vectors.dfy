/**
 * Interrupt vector numbering, status codes and static attributes of the
 * RISC-V interrupt support.
 *
 * The vector layout is that of the RISC-V BSP interrupt header (which is not
 * part of this model): vector 0 is the machine software interrupt, vector 1
 * the machine timer interrupt, and PLIC interrupt source i is vector i + 2.
 * PLIC source 0 is reserved ("nothing claimed"), so vector 2 is never valid.
 */
module RiscvVectors {

  /** The subset of rtems_status_code this driver returns. */
  datatype Status = Successful | Unsatisfied | InvalidNumber

  /** Fatal error codes passed to bsp_fatal(), which does not return. */
  datatype FatalCode =
    | NoClintRegInDeviceTree
    | NoPlicRegInDeviceTree
    | InvalidPlicNdevInDeviceTree
    | TooLargePlicNdevInDeviceTree
    | UnexpectedInterruptException

  const VectorSoftware: nat := 0
  const VectorTimer: nat := 1

  /** RISCV_INTERRUPT_VECTOR_EXTERNAL(index) */
  function External(index: nat): nat
  {
    index + 2
  }

  /** RISCV_INTERRUPT_VECTOR_IS_EXTERNAL(vector) */
  predicate IsExternal(vector: nat)
  {
    vector >= 2
  }

  /** RISCV_INTERRUPT_VECTOR_EXTERNAL_TO_INDEX(vector) */
  function ExternalToIndex(vector: nat): nat
    requires IsExternal(vector)
  {
    vector - 2
  }

  /** BSP_INTERRUPT_VECTOR_COUNT for a PLIC with maxExternal sources. */
  function VectorCount(maxExternal: nat): nat
  {
    External(maxExternal)
  }

  /** bsp_interrupt_is_valid_vector */
  predicate IsValidVector(vector: nat, maxExternal: nat)
  {
    if vector == External(0) then false else vector < VectorCount(maxExternal)
  }

  /** The external-vector numbering is a bijection between sources and external vectors. */
  lemma ExternalRoundTrip(index: nat, vector: nat)
    ensures IsExternal(External(index)) && ExternalToIndex(External(index)) == index
    ensures IsExternal(vector) ==> External(ExternalToIndex(vector)) == vector
    ensures !IsExternal(vector) <==> vector == VectorSoftware || vector == VectorTimer
  {
  }

  /**
   * The valid vectors are exactly the software vector, the timer vector and
   * the vectors of PLIC sources 1 .. maxExternal - 1.
   */
  lemma ValidVectors(vector: nat, maxExternal: nat)
    requires maxExternal >= 1
    ensures IsValidVector(vector, maxExternal) <==>
              vector == VectorSoftware || vector == VectorTimer ||
              (IsExternal(vector) && 1 <= ExternalToIndex(vector) < maxExternal)
  {
  }

  /** A valid external vector names a PLIC source in 1 .. maxExternal - 1. */
  lemma ValidExternalIndex(vector: nat, maxExternal: nat)
    requires IsValidVector(vector, maxExternal) && IsExternal(vector)
    ensures 1 <= ExternalToIndex(vector) < maxExternal
  {
  }

  // Machine interrupt cause codes (RISC-V Privileged Architecture, section 3.1.15).
  const CauseMachineSoftware: nat := 3
  const CauseMachineTimer: nat := 7
  const CauseMachineExternal: nat := 11

  // Bits of the mip/mie CSRs (RISC-V Privileged Architecture, section 3.1.9).
  const MipMsip: bv64 := 1 << 3
  const MipMtip: bv64 := 1 << 7
  const MipMeip: bv64 := 1 << 11

  datatype TriggerSignal =
    | NoSignal | UnspecifiedSignal | HighLevelSignal | LowLevelSignal
    | RisingEdgeSignal | FallingEdgeSignal | AnyEdgeSignal

  /** The members of rtems_interrupt_attributes that the driver writes. */
  datatype Attributes = Attributes(
    isMaskable: bool,
    canEnable: bool,
    maybeEnable: bool,
    canDisable: bool,
    maybeDisable: bool,
    canRaise: bool,
    canRaiseOn: bool,
    clearedByAcknowledge: bool,
    canGetAffinity: bool,
    canSetAffinity: bool,
    triggerSignal: TriggerSignal)

  /**
   * bsp_interrupt_get_attributes: fills in the attributes of a vector, leaving
   * the trigger signal as the caller passed it except for the software vector.
   */
  function GetAttributes(vector: nat, attributes: Attributes): (r: (Status, Attributes))
    ensures r.0 == Successful
    ensures r.1.isMaskable && r.1.canEnable && r.1.maybeEnable
    ensures r.1.canDisable && r.1.maybeDisable && r.1.clearedByAcknowledge
    ensures r.1.canRaise <==> vector == VectorSoftware
    ensures r.1.canRaiseOn <==> vector == VectorSoftware
    ensures r.1.canGetAffinity <==> IsExternal(vector)
    ensures r.1.canSetAffinity <==> IsExternal(vector)
    ensures r.1.triggerSignal == (if vector == VectorSoftware then NoSignal else attributes.triggerSignal)
  {
    var canRaise := vector == VectorSoftware;
    var canGetAffinity := IsExternal(vector);
    var a := Attributes(
      isMaskable := true,
      canEnable := true,
      maybeEnable := true,
      canDisable := true,
      maybeDisable := true,
      canRaise := canRaise,
      canRaiseOn := canRaise,
      clearedByAcknowledge := true,
      canGetAffinity := canGetAffinity,
      canSetAffinity := canGetAffinity,
      triggerSignal := attributes.triggerSignal);
    (Successful, if vector == VectorSoftware then a.(triggerSignal := NoSignal) else a)
  }

  /** Status of riscv_raise_on: only the software vector can be raised. */
  function RaiseStatus(vector: nat): Status
  {
    if vector != VectorSoftware then Unsatisfied else Successful
  }

  /** Status of set_affinity and get_affinity for a vector without affinity support. */
  function AffinityStatus(vector: nat): Status
  {
    if IsExternal(vector) then Successful else Unsatisfied
  }

  /**
   * The attributes advertise exactly what the operations do: raise succeeds
   * iff can_raise is set, and the affinity operations do not fail with
   * UNSATISFIED iff can_get_affinity/can_set_affinity are set.
   */
  lemma AttributesAgreeWithOperations(vector: nat, attributes: Attributes)
    ensures GetAttributes(vector, attributes).1.canRaise <==> RaiseStatus(vector) == Successful
    ensures GetAttributes(vector, attributes).1.canSetAffinity <==> AffinityStatus(vector) != Unsatisfied
  {
  }
}
