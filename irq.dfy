/**
 * The RISC-V interrupt controller state and its vector-control operations
 * (bsp_interrupt_is_pending, _vector_is_enabled, _vector_enable, _disable,
 * _raise, _raise_on, _clear, _set_affinity, _get_affinity).
 *
 * The hardware is an in-memory register model.  The PLIC enable region is a
 * flat run of 32-bit words in which context k owns the block that starts at
 * word 32 * k, so a `plic_m_ie` pointer is the offset of its block's first
 * word, and two such pointers are equal iff their offsets are.  The affinity
 * table `riscv_plic_irq_to_cpu` holds, per external source, either such an
 * offset (one-to-one distribution) or None, the NULL pointer that means
 * "every processor" (one-to-all distribution).
 *
 * The PLIC lock makes each enable/disable atomic; every operation here is
 * modelled as one atomic step.
 */
module RiscvIrq {
  import opened Optional
  import opened RiscvVectors
  import opened PlicBitmap

  /** Build-time options and boot-time parameters of the BSP. */
  datatype Config = Config(
    smp: bool,               // RTEMS_SMP
    htifSupport: bool,       // RISCV_ENABLE_HTIF_SUPPORT != 0
    bootHartId: nat,         // RISCV_BOOT_HARTID
    maxExternal: nat,        // RISCV_MAXIMUM_EXTERNAL_INTERRUPTS
    maxProcessors: nat,      // rtems_configuration_get_maximum_processors()
    hartToCpu: nat -> nat,   // _RISCV_Map_hardid_to_cpu_index()
    xlen: nat)               // width of mcause (uintptr_t)

  /** The interrupt-controller pointers of one Per_CPU_Control, as register indices. */
  datatype PerCpu = PerCpu(
    clintMsip: Option<nat>,      // &clint->msip[k]
    clintMtimecmp: Option<nat>,  // &clint->mtimecmp[k]
    plicHartRegs: Option<nat>,   // &plic->harts[k]
    plicMie: Option<nat>)        // &plic->enable[k][0], as a word offset

  /** A processor control block before the interrupt facility is initialised. */
  const NoPointers: PerCpu := PerCpu(None, None, None, None)

  function BlockOf(cpu: PerCpu): set<nat>
  {
    match cpu.plicMie
    case Some(b) => {b}
    case None => {}
  }

  /** The enable blocks of processors 0 .. n-1 whose `plic_m_ie` is not NULL. */
  function BroadcastBlocks(cpus: seq<PerCpu>, n: nat): set<nat>
    requires n <= |cpus|
  {
    if n == 0 then {} else BroadcastBlocks(cpus, n - 1) + BlockOf(cpus[n - 1])
  }

  lemma {:induction false} BroadcastBlocksMembers(cpus: seq<PerCpu>, n: nat, b: nat)
    requires n <= |cpus|
    ensures b in BroadcastBlocks(cpus, n) <==> exists c :: 0 <= c < n && cpus[c].plicMie == Some(b)
  {
    if n > 0 {
      BroadcastBlocksMembers(cpus, n - 1, b);
      if cpus[n - 1].plicMie == Some(b) {
        assert b in BlockOf(cpus[n - 1]);
      }
    }
  }

  /**
   * The blocks whose bit an enable or disable changes: the one block an
   * exclusive table entry names, or every processor's block for NULL.
   */
  function EnableTargets(entry: Option<nat>, cpus: seq<PerCpu>, n: nat): set<nat>
    requires n <= |cpus|
  {
    match entry
    case Some(b) => {b}
    case None => BroadcastBlocks(cpus, n)
  }

  /** Some processor below n has the source's enable bit set in its block. */
  ghost predicate EnabledAnywhere(words: seq<Word>, cpus: seq<PerCpu>, n: nat, index: nat)
    requires n <= |cpus|
  {
    exists b :: b in BroadcastBlocks(cpus, n) && b + Group(index) < |words| && IsSet(words, b, index)
  }

  /** What set_affinity makes of a requested processor set. */
  datatype AffinityRequest = Broadcast | Exclusive(cpu: nat) | Rejected

  lemma SingletonSet(s: set<nat>, c: nat)
    requires |s| == 1 && c in s
    ensures s == {c}
  {
    assert |s - {c}| == 0;
  }

  /**
   * set_affinity intersects the request with the online processors: all of
   * them gives the one-to-all distribution, exactly one gives a one-to-one
   * distribution to it, and anything else is rejected.
   */
  ghost function ClassifyAffinity(requested: set<nat>, online: set<nat>): (r: AffinityRequest)
    ensures r == Broadcast <==> online <= requested
    ensures r.Exclusive? ==> requested * online == {r.cpu} && r.cpu in online && online != {r.cpu}
    ensures r == Rejected <==> !(online <= requested) && |requested * online| != 1
  {
    var mask := requested * online;
    if mask == online then Broadcast
    else if |mask| == 1 then
      var c :| c in mask;
      SingletonSet(mask, c);
      Exclusive(c)
    else Rejected
  }

  /** The table entry after set_affinity: NULL, the chosen processor's `plic_m_ie`, or unchanged. */
  function AffinityEntry(request: AffinityRequest, cpus: seq<PerCpu>, current: Option<nat>): Option<nat>
    requires request.Exclusive? ==> request.cpu < |cpus|
  {
    match request
    case Broadcast => None
    case Exclusive(c) => cpus[c].plicMie
    case Rejected => current
  }

  /** The lowest-numbered processor below n whose `plic_m_ie` is block b. */
  function LowestCpuWithBlock(cpus: seq<PerCpu>, n: nat, b: nat): (r: Option<nat>)
    requires n <= |cpus|
    ensures r.Some? ==> r.value < n && cpus[r.value].plicMie == Some(b)
    ensures r.Some? ==> forall j :: 0 <= j < r.value ==> cpus[j].plicMie != Some(b)
    ensures r.None? ==> forall j :: 0 <= j < n ==> cpus[j].plicMie != Some(b)
  {
    if n == 0 then None
    else match LowestCpuWithBlock(cpus, n - 1, b)
      case Some(c) => Some(c)
      case None => if cpus[n - 1].plicMie == Some(b) then Some(n - 1) else None
  }

  /**
   * The processor set get_affinity reports: the online set for NULL, else the
   * caller's set plus the first processor whose enable block the entry names.
   */
  function AffinityReport(entry: Option<nat>, cpus: seq<PerCpu>, n: nat, online: set<nat>, affinity: set<nat>): set<nat>
    requires n <= |cpus|
  {
    match entry
    case None => online
    case Some(b) =>
      match LowestCpuWithBlock(cpus, n, b)
      case Some(c) => affinity + {c}
      case None => affinity
  }

  /** riscv_plic_irq_to_cpu, the per-processor pointers and the interrupt controller registers. */
  class InterruptController {
    const cfg: Config
    const cpuMax: nat              // _SMP_Get_processor_maximum()
    const online: set<nat>         // _SMP_Get_online_processors()
    const clintMsip: array<bv32>   // clint->msip[]
    const plicPriority: array<bv32>  // plic->priority[]
    const plicPending: array<Word>   // plic->pending[]
    const plicEnable: array<Word>    // plic->enable[][], flattened
    const plicThreshold: array<bv32> // plic->harts[].priority_threshold
    var cpus: seq<PerCpu>          // the Per_CPU_Control pointers, by processor index
    var irqToCpu: seq<Option<nat>> // riscv_plic_irq_to_cpu
    var mie: bv64                  // mie CSR of the executing hart
    var mip: bv64                  // mip CSR of the executing hart

    predicate ValidBlock(b: nat)
    {
      b % WordsPerBlock == 0 && b + WordsPerBlock <= plicEnable.Length
    }

    predicate ValidCpu(cpu: PerCpu)
    {
      && (cpu.clintMsip.Some? ==> cpu.clintMsip.value < clintMsip.Length)
      && (cpu.plicHartRegs.Some? ==> cpu.plicHartRegs.value < plicThreshold.Length)
      && (cpu.plicMie.Some? ==> ValidBlock(cpu.plicMie.value))
    }

    /** The register arrays of one element type are distinct objects. */
    ghost predicate Distinct()
    {
      && clintMsip != plicPriority && clintMsip != plicThreshold && plicPriority != plicThreshold
      && plicPending != plicEnable
      && clintMsip as object != plicPending && clintMsip as object != plicEnable
      && plicPriority as object != plicPending && plicPriority as object != plicEnable
      && plicThreshold as object != plicPending && plicThreshold as object != plicEnable
    }

    ghost predicate Valid()
      reads this
    {
      && 1 <= cfg.maxExternal <= MaxSources
      && (cfg.xlen == 32 || cfg.xlen == 64)
      && 1 <= cfg.maxProcessors == |cpus|
      && 1 <= cpuMax <= |cpus|
      && (!cfg.smp ==> |cpus| == 1)
      && (forall c | c in online :: c < cpuMax)
      && |irqToCpu| == cfg.maxExternal
      && plicPriority.Length > cfg.maxExternal
      && plicPending.Length * 32 >= cfg.maxExternal
      && (forall c | 0 <= c < |cpus| :: ValidCpu(cpus[c]))
      && (forall i | 0 <= i < |irqToCpu| :: irqToCpu[i].Some? ==> ValidBlock(irqToCpu[i].value))
      && (forall i | 0 <= i < |irqToCpu| :: irqToCpu[i].Some? ==> irqToCpu[i].value in BroadcastBlocks(cpus, cpuMax))
      && Distinct()
    }

    /**
     * The state before bsp_interrupt_facility_initialize(): zero-initialised
     * static storage (NULL pointers, an all-NULL table) over registers of the
     * given sizes.
     */
    constructor (cfg: Config, cpuMax: nat, online: set<nat>,
                 msipCount: nat, pendingWords: nat, contexts: nat)
      requires 1 <= cfg.maxExternal <= MaxSources && (cfg.xlen == 32 || cfg.xlen == 64)
      requires 1 <= cpuMax <= cfg.maxProcessors && (!cfg.smp ==> cfg.maxProcessors == 1)
      requires forall c | c in online :: c < cpuMax
      requires pendingWords * 32 >= cfg.maxExternal
      ensures Valid()
      ensures this.cfg == cfg && this.cpuMax == cpuMax && this.online == online
      ensures cpus == seq(cfg.maxProcessors, _ => NoPointers)
      ensures irqToCpu == seq(cfg.maxExternal, _ => None)
      ensures clintMsip.Length == msipCount && plicPending.Length == pendingWords
      ensures plicEnable.Length == contexts * WordsPerBlock && plicThreshold.Length == contexts
      ensures plicPriority.Length == cfg.maxExternal + 1
      ensures fresh(clintMsip) && fresh(plicPriority) && fresh(plicPending)
      ensures fresh(plicEnable) && fresh(plicThreshold)
      ensures mie == 0
    {
      this.cfg := cfg;
      this.cpuMax := cpuMax;
      this.online := online;
      clintMsip := new bv32[msipCount];
      plicPriority := new bv32[cfg.maxExternal + 1];
      plicPending := new Word[pendingWords];
      plicEnable := new Word[contexts * WordsPerBlock];
      plicThreshold := new bv32[contexts];
      cpus := seq(cfg.maxProcessors, _ => NoPointers);
      irqToCpu := seq(cfg.maxExternal, _ => None);
      mie := 0;
      mip := 0;
    }

    /** bsp_interrupt_is_pending: the source's bit of the PLIC pending bitmap, or mip.MTIP / mip.MSIP. */
    method IsPending(vector: nat) returns (status: Status, pending: bool)
      requires Valid() && IsValidVector(vector, cfg.maxExternal)
      ensures status == Successful
      ensures IsExternal(vector) ==>
                Group(ExternalToIndex(vector)) < plicPending.Length &&
                pending == IsSet(plicPending[..], 0, ExternalToIndex(vector))
      ensures vector == VectorTimer ==> pending == (mip & MipMtip != 0)
      ensures vector == VectorSoftware ==> pending == (mip & MipMsip != 0)
    {
      if IsExternal(vector) {
        var index := ExternalToIndex(vector);
        ValidExternalIndex(vector, cfg.maxExternal);
        var group := Group(index);
        var bit := Bit(index);
        pending := plicPending[group] * bit != {};
        return Successful, pending;
      }
      if vector == VectorTimer {
        pending := mip & MipMtip != 0;
        return Successful, pending;
      }
      pending := mip & MipMsip != 0;
      return Successful, pending;
    }

    /**
     * bsp_interrupt_vector_is_enabled.  An external source counts as enabled
     * if any processor has its bit set (on a uniprocessor, the only one).
     */
    method IsEnabled(vector: nat) returns (status: Status, enabled: bool)
      requires Valid() && IsValidVector(vector, cfg.maxExternal)
      requires IsExternal(vector) && !cfg.smp ==> cpus[0].plicMie.Some?
      ensures status == Successful
      ensures IsExternal(vector) ==>
                enabled == EnabledAnywhere(plicEnable[..], cpus, cpuMax, ExternalToIndex(vector))
      ensures vector == VectorTimer ==> enabled == (mie & MipMtip != 0)
      ensures vector == VectorSoftware ==> enabled == (mie & MipMsip != 0)
    {
      if IsExternal(vector) {
        var index := ExternalToIndex(vector);
        ValidExternalIndex(vector, cfg.maxExternal);
        var group := Group(index);
        var bit := Bit(index);
        if cfg.smp {
          var cpuIndex := 0;
          while cpuIndex < cpuMax
            invariant 0 <= cpuIndex <= cpuMax
            invariant !EnabledAnywhere(plicEnable[..], cpus, cpuIndex, index)
          {
            var enable := cpus[cpuIndex].plicMie;
            if enable.Some? && plicEnable[enable.value + group] * bit != {} {
              BroadcastBlocksMembers(cpus, cpuMax, enable.value);
              assert IsSet(plicEnable[..], enable.value, index);
              return Successful, true;
            }
            cpuIndex := cpuIndex + 1;
          }
          return Successful, false;
        } else {
          var enable := cpus[0].plicMie.value;
          enabled := plicEnable[enable + group] * bit != {};
          assert BroadcastBlocks(cpus, cpuMax) == {enable};
          return Successful, enabled;
        }
      }
      if vector == VectorTimer {
        enabled := mie & MipMtip != 0;
        return Successful, enabled;
      }
      enabled := mie & MipMsip != 0;
      return Successful, enabled;
    }

    /** `enable[group] |= bit` on one block. */
    method SetInBlock(b: nat, index: nat)
      requires Valid() && ValidBlock(b) && index < MaxSources
      modifies plicEnable
      ensures plicEnable[..] == SetSource(old(plicEnable[..]), {b}, index)
    {
      ghost var before := plicEnable[..];
      var group := Group(index);
      plicEnable[b + group] := plicEnable[b + group] + Bit(index);
      NoBlocks(before, index);
      SetSourceAddBlock(before, {}, index, b);
      assert {} + {b} == {b};
    }

    /** `enable[group] &= ~bit` on one block. */
    method ClearInBlock(b: nat, index: nat)
      requires Valid() && ValidBlock(b) && index < MaxSources
      modifies plicEnable
      ensures plicEnable[..] == ClearSource(old(plicEnable[..]), {b}, index)
    {
      ghost var before := plicEnable[..];
      var group := Group(index);
      plicEnable[b + group] := plicEnable[b + group] - Bit(index);
      NoBlocks(before, index);
      ClearSourceAddBlock(before, {}, index, b);
      assert {} + {b} == {b};
    }

    /** The SMP one-to-all path of enable: the bit is set in the block of every processor that has one. */
    method SetInEveryBlock(index: nat)
      requires Valid() && index < MaxSources
      modifies plicEnable
      ensures plicEnable[..] == SetSource(old(plicEnable[..]), BroadcastBlocks(cpus, cpuMax), index)
    {
      ghost var before := plicEnable[..];
      NoBlocks(before, index);
      var group := Group(index);
      var bit := Bit(index);
      var cpuIndex := 0;
      while cpuIndex < cpuMax
        invariant 0 <= cpuIndex <= cpuMax
        invariant plicEnable[..] == SetSource(before, BroadcastBlocks(cpus, cpuIndex), index)
      {
        var enable := cpus[cpuIndex].plicMie;
        if enable.Some? {
          SetSourceStep(before, cpus, cpuIndex, index);
          plicEnable[enable.value + group] := plicEnable[enable.value + group] + bit;
        } else {
          assert BroadcastBlocks(cpus, cpuIndex + 1) == BroadcastBlocks(cpus, cpuIndex);
        }
        cpuIndex := cpuIndex + 1;
      }
    }

    /** The SMP one-to-all path of disable: the bit is cleared in the block of every processor that has one. */
    method ClearInEveryBlock(index: nat)
      requires Valid() && index < MaxSources
      modifies plicEnable
      ensures plicEnable[..] == ClearSource(old(plicEnable[..]), BroadcastBlocks(cpus, cpuMax), index)
    {
      ghost var before := plicEnable[..];
      NoBlocks(before, index);
      var group := Group(index);
      var bit := Bit(index);
      var cpuIndex := 0;
      while cpuIndex < cpuMax
        invariant 0 <= cpuIndex <= cpuMax
        invariant plicEnable[..] == ClearSource(before, BroadcastBlocks(cpus, cpuIndex), index)
      {
        var enable := cpus[cpuIndex].plicMie;
        if enable.Some? {
          ClearSourceStep(before, cpus, cpuIndex, index);
          plicEnable[enable.value + group] := plicEnable[enable.value + group] - bit;
        } else {
          assert BroadcastBlocks(cpus, cpuIndex + 1) == BroadcastBlocks(cpus, cpuIndex);
        }
        cpuIndex := cpuIndex + 1;
      }
    }

    /**
     * bsp_interrupt_vector_enable.  An external source's bit is set in the
     * block its table entry names, or in every processor's block for NULL;
     * the timer and software vectors set their bit in mie.
     */
    method VectorEnable(vector: nat) returns (status: Status)
      requires Valid() && IsValidVector(vector, cfg.maxExternal)
      modifies plicEnable, this`mie
      ensures Valid() && status == Successful
      ensures IsExternal(vector) ==>
                && plicEnable[..] == SetSource(old(plicEnable[..]),
                     EnableTargets(irqToCpu[ExternalToIndex(vector) - 1], cpus, cpuMax), ExternalToIndex(vector))
                && mie == old(mie)
      ensures vector == VectorTimer ==> plicEnable[..] == old(plicEnable[..]) && mie == old(mie) | MipMtip
      ensures vector == VectorSoftware ==> plicEnable[..] == old(plicEnable[..]) && mie == old(mie) | MipMsip
    {
      if IsExternal(vector) {
        var index := ExternalToIndex(vector);
        ValidExternalIndex(vector, cfg.maxExternal);
        var enable := irqToCpu[index - 1];
        var group := Group(index);
        var bit := Bit(index);
        if enable.Some? {
          SetInBlock(enable.value, index);
        } else if cfg.smp {
          SetInEveryBlock(index);
        } else {
          var cpuEnable := cpus[0].plicMie;
          assert BroadcastBlocks(cpus, cpuMax) == BlockOf(cpus[0]);
          if cpuEnable.Some? {
            SetInBlock(cpuEnable.value, index);
          } else {
            NoBlocks(plicEnable[..], index);
          }
        }
        return Successful;
      }
      if vector == VectorTimer {
        mie := mie | MipMtip;
        return Successful;
      }
      mie := mie | MipMsip;
      return Successful;
    }

    /** bsp_interrupt_vector_disable: the mirror image of VectorEnable, clearing the same bit. */
    method VectorDisable(vector: nat) returns (status: Status)
      requires Valid() && IsValidVector(vector, cfg.maxExternal)
      modifies plicEnable, this`mie
      ensures Valid() && status == Successful
      ensures IsExternal(vector) ==>
                && plicEnable[..] == ClearSource(old(plicEnable[..]),
                     EnableTargets(irqToCpu[ExternalToIndex(vector) - 1], cpus, cpuMax), ExternalToIndex(vector))
                && mie == old(mie)
      ensures vector == VectorTimer ==> plicEnable[..] == old(plicEnable[..]) && mie == old(mie) & !MipMtip
      ensures vector == VectorSoftware ==> plicEnable[..] == old(plicEnable[..]) && mie == old(mie) & !MipMsip
    {
      if IsExternal(vector) {
        var index := ExternalToIndex(vector);
        ValidExternalIndex(vector, cfg.maxExternal);
        var enable := irqToCpu[index - 1];
        var group := Group(index);
        var bit := Bit(index);
        if enable.Some? {
          ClearInBlock(enable.value, index);
        } else if cfg.smp {
          ClearInEveryBlock(index);
        } else {
          var cpuEnable := cpus[0].plicMie;
          assert BroadcastBlocks(cpus, cpuMax) == BlockOf(cpus[0]);
          if cpuEnable.Some? {
            ClearInBlock(cpuEnable.value, index);
          } else {
            NoBlocks(plicEnable[..], index);
          }
        }
        return Successful;
      }
      if vector == VectorTimer {
        mie := mie & !MipMtip;
        return Successful;
      }
      mie := mie & !MipMsip;
      return Successful;
    }

    /** riscv_raise_on: only the software vector can be raised, by writing 1 to the target's msip. */
    method RiscvRaiseOn(vector: nat, cpuIndex: nat) returns (status: Status)
      requires Valid() && IsValidVector(vector, cfg.maxExternal)
      requires vector == VectorSoftware ==> cpuIndex < |cpus| && cpus[cpuIndex].clintMsip.Some?
      modifies clintMsip
      ensures status == RaiseStatus(vector)
      ensures vector != VectorSoftware ==> clintMsip[..] == old(clintMsip[..])
      ensures vector == VectorSoftware ==>
                clintMsip[..] == old(clintMsip[..])[cpus[cpuIndex].clintMsip.value := 1]
    {
      if vector != VectorSoftware {
        return Unsatisfied;
      }
      clintMsip[cpus[cpuIndex].clintMsip.value] := 1;
      return Successful;
    }

    /** bsp_interrupt_raise: raise on the executing processor `self`. */
    method Raise(vector: nat, self: nat) returns (status: Status)
      requires Valid() && IsValidVector(vector, cfg.maxExternal)
      requires vector == VectorSoftware ==> self < |cpus| && cpus[self].clintMsip.Some?
      modifies clintMsip
      ensures status == RaiseStatus(vector)
      ensures vector != VectorSoftware ==> clintMsip[..] == old(clintMsip[..])
      ensures vector == VectorSoftware ==>
                clintMsip[..] == old(clintMsip[..])[cpus[self].clintMsip.value := 1]
    {
      status := RiscvRaiseOn(vector, self);
    }

    /** bsp_interrupt_raise_on (SMP only). */
    method RaiseOn(vector: nat, cpuIndex: nat) returns (status: Status)
      requires Valid() && cfg.smp && IsValidVector(vector, cfg.maxExternal)
      requires vector == VectorSoftware ==> cpuIndex < |cpus| && cpus[cpuIndex].clintMsip.Some?
      modifies clintMsip
      ensures status == RaiseStatus(vector)
      ensures vector != VectorSoftware ==> clintMsip[..] == old(clintMsip[..])
      ensures vector == VectorSoftware ==>
                clintMsip[..] == old(clintMsip[..])[cpus[cpuIndex].clintMsip.value := 1]
    {
      status := RiscvRaiseOn(vector, cpuIndex);
    }

    /** bsp_interrupt_clear: never supported; it changes nothing (no modifies clause). */
    method Clear(vector: nat) returns (status: Status)
      requires Valid() && IsValidVector(vector, cfg.maxExternal)
      ensures status == Unsatisfied
    {
      return Unsatisfied;
    }

    /**
     * bsp_interrupt_set_affinity (SMP only).  The generic layer passes only
     * valid vectors, which keeps `interrupt_index - 1` inside the table.
     */
    method SetAffinity(vector: nat, affinity: set<nat>) returns (status: Status)
      requires Valid() && cfg.smp && IsValidVector(vector, cfg.maxExternal)
      modifies this`irqToCpu
      ensures Valid()
      ensures (status == Unsatisfied) == (AffinityStatus(vector) == Unsatisfied)
      ensures !IsExternal(vector) ==> status == Unsatisfied && irqToCpu == old(irqToCpu)
      ensures IsExternal(vector) ==>
                var i := ExternalToIndex(vector) - 1;
                var request := ClassifyAffinity(affinity, online);
                && status == (if request == Rejected then InvalidNumber else Successful)
                && irqToCpu == old(irqToCpu)[i := AffinityEntry(request, cpus, old(irqToCpu)[i])]
    {
      if IsExternal(vector) {
        var index := ExternalToIndex(vector);
        ValidExternalIndex(vector, cfg.maxExternal);
        var mask := affinity * online;
        if mask == online {
          irqToCpu := irqToCpu[index - 1 := None];
          return Successful;
        }
        if |mask| == 1 {
          // _Processor_mask_Find_last_set(&mask) - 1: the only member of the mask
          var cpuIndex :| cpuIndex in mask;
          SingletonSet(mask, cpuIndex);
          if cpus[cpuIndex].plicMie.Some? {
            BroadcastBlocksMembers(cpus, cpuMax, cpus[cpuIndex].plicMie.value);
          }
          irqToCpu := irqToCpu[index - 1 := cpus[cpuIndex].plicMie];
          return Successful;
        }
        return InvalidNumber;
      }
      return Unsatisfied;
    }

    /**
     * bsp_interrupt_get_affinity (SMP only).  For a one-to-one entry the
     * first processor whose enable block the entry names is added to the
     * caller's set; for NULL the set becomes the online processors.
     */
    method GetAffinity(vector: nat, affinity: set<nat>) returns (status: Status, result: set<nat>)
      requires Valid() && cfg.smp && IsValidVector(vector, cfg.maxExternal)
      ensures status == AffinityStatus(vector)
      ensures !IsExternal(vector) ==> status == Unsatisfied && result == affinity
      ensures IsExternal(vector) ==>
                && status == Successful
                && result == AffinityReport(irqToCpu[ExternalToIndex(vector) - 1], cpus, cpuMax, online, affinity)
    {
      if IsExternal(vector) {
        var index := ExternalToIndex(vector);
        ValidExternalIndex(vector, cfg.maxExternal);
        var enable := irqToCpu[index - 1];
        result := affinity;
        if enable.Some? {
          var cpuIndex := 0;
          while cpuIndex < cpuMax
            invariant 0 <= cpuIndex <= cpuMax
            invariant LowestCpuWithBlock(cpus, cpuIndex, enable.value).None?
            invariant result == affinity
          {
            if enable == cpus[cpuIndex].plicMie {
              result := affinity + {cpuIndex};
              LowestCpuWithBlockFound(cpus, cpuIndex, cpuMax, enable.value);
              break;
            }
            cpuIndex := cpuIndex + 1;
          }
          if cpuIndex == cpuMax {
            LowestCpuWithBlockNone(cpus, cpuMax, enable.value);
          }
        } else {
          result := online;
        }
        return Successful, result;
      }
      return Unsatisfied, affinity;
    }
  }

  lemma LowestCpuWithBlockFound(cpus: seq<PerCpu>, c: nat, n: nat, b: nat)
    requires c < n <= |cpus| && cpus[c].plicMie == Some(b)
    requires forall j :: 0 <= j < c ==> cpus[j].plicMie != Some(b)
    ensures LowestCpuWithBlock(cpus, n, b) == Some(c)
  {
    var r := LowestCpuWithBlock(cpus, n, b);
    assert r.Some?;
    assert !(r.value < c) && !(c < r.value);
  }

  lemma LowestCpuWithBlockNone(cpus: seq<PerCpu>, n: nat, b: nat)
    requires n <= |cpus| && LowestCpuWithBlock(cpus, n, b).None?
    ensures forall j :: 0 <= j < n ==> cpus[j].plicMie != Some(b)
  {
  }

  /** One more processor in the one-to-all loop of enable is one more `|=` on its block's word. */
  lemma SetSourceStep(words: seq<Word>, cpus: seq<PerCpu>, n: nat, index: nat)
    requires n < |cpus| && cpus[n].plicMie.Some? && cpus[n].plicMie.value + Group(index) < |words|
    ensures var w := cpus[n].plicMie.value + Group(index);
            var current := SetSource(words, BroadcastBlocks(cpus, n), index);
            SetSource(words, BroadcastBlocks(cpus, n + 1), index) == current[w := current[w] + Bit(index)]
  {
    assert BroadcastBlocks(cpus, n + 1) == BroadcastBlocks(cpus, n) + {cpus[n].plicMie.value};
    SetSourceAddBlock(words, BroadcastBlocks(cpus, n), index, cpus[n].plicMie.value);
  }

  /** One more processor in the one-to-all loop of disable is one more `&= ~bit` on its block's word. */
  lemma ClearSourceStep(words: seq<Word>, cpus: seq<PerCpu>, n: nat, index: nat)
    requires n < |cpus| && cpus[n].plicMie.Some? && cpus[n].plicMie.value + Group(index) < |words|
    ensures var w := cpus[n].plicMie.value + Group(index);
            var current := ClearSource(words, BroadcastBlocks(cpus, n), index);
            ClearSource(words, BroadcastBlocks(cpus, n + 1), index) == current[w := current[w] - Bit(index)]
  {
    assert BroadcastBlocks(cpus, n + 1) == BroadcastBlocks(cpus, n) + {cpus[n].plicMie.value};
    ClearSourceAddBlock(words, BroadcastBlocks(cpus, n), index, cpus[n].plicMie.value);
  }

  /** Every enable block of processors 0 .. n-1 is aligned and lies inside a region of `length` words. */
  ghost predicate BlocksInside(cpus: seq<PerCpu>, n: nat, length: nat)
    requires n <= |cpus|
  {
    forall c | 0 <= c < n && cpus[c].plicMie.Some? ::
      cpus[c].plicMie.value % WordsPerBlock == 0 && cpus[c].plicMie.value + WordsPerBlock <= length
  }

  /** No two processors share an enable block (the per-hart contexts are distinct). */
  ghost predicate DistinctBlocks(cpus: seq<PerCpu>, n: nat)
    requires n <= |cpus|
  {
    forall c, d | 0 <= c < d < n && cpus[c].plicMie.Some? :: cpus[c].plicMie != cpus[d].plicMie
  }

  lemma {:induction false} BroadcastBlocksInside(cpus: seq<PerCpu>, n: nat, length: nat)
    requires n <= |cpus| && BlocksInside(cpus, n, length)
    ensures forall b | b in BroadcastBlocks(cpus, n) :: b % WordsPerBlock == 0 && b + WordsPerBlock <= length
  {
    if n > 0 {
      BroadcastBlocksInside(cpus, n - 1, length);
    }
  }

  /**
   * After enable, is_enabled reports the source enabled: the bit is set in
   * at least one processor's block, provided the table entry names a
   * processor's block and some processor has a PLIC context at all.
   */
  lemma EnableMakesEnabled(words: seq<Word>, cpus: seq<PerCpu>, n: nat, entry: Option<nat>, index: nat)
    requires n <= |cpus| && index < MaxSources && BlocksInside(cpus, n, |words|)
    requires entry.Some? ==> entry.value in BroadcastBlocks(cpus, n)
    requires BroadcastBlocks(cpus, n) != {}
    ensures EnabledAnywhere(SetSource(words, EnableTargets(entry, cpus, n), index), cpus, n, index)
  {
    BroadcastBlocksInside(cpus, n, |words|);
    var targets := EnableTargets(entry, cpus, n);
    var b :| b in targets;
    SetSourceEffect(words, targets, index, b, index);
  }

  /**
   * After a one-to-all disable, is_enabled reports the source disabled: its
   * bit is clear in the block of every processor.
   */
  lemma DisableBroadcastDisables(words: seq<Word>, cpus: seq<PerCpu>, n: nat, index: nat)
    requires n <= |cpus| && index < MaxSources && BlocksInside(cpus, n, |words|)
    ensures !EnabledAnywhere(ClearSource(words, EnableTargets(None, cpus, n), index), cpus, n, index)
  {
    BroadcastBlocksInside(cpus, n, |words|);
    var targets := BroadcastBlocks(cpus, n);
    forall b | b in targets
      ensures !IsSet(ClearSource(words, targets, index), b, index)
    {
      ClearSourceEffect(words, targets, index, b, index);
    }
  }

  /**
   * After a one-to-one disable, is_enabled still reports the source enabled
   * iff some other processor's block has its bit set, as happens when the
   * source was enabled one-to-all and its affinity was then narrowed.
   */
  lemma DisableExclusiveLeavesOthers(words: seq<Word>, cpus: seq<PerCpu>, n: nat, b: nat, index: nat)
    requires n <= |cpus| && index < MaxSources && BlocksInside(cpus, n, |words|)
    requires b in BroadcastBlocks(cpus, n)
    ensures EnabledAnywhere(ClearSource(words, EnableTargets(Some(b), cpus, n), index), cpus, n, index) <==>
              exists b' :: b' in BroadcastBlocks(cpus, n) && b' != b && b' + Group(index) < |words| && IsSet(words, b', index)
  {
    BroadcastBlocksInside(cpus, n, |words|);
    var after := ClearSource(words, {b}, index);
    forall b' | b' in BroadcastBlocks(cpus, n)
      ensures IsSet(after, b', index) <==> b' != b && IsSet(words, b', index)
    {
      ClearSourceEffect(words, {b}, index, b', index);
    }
  }

  /**
   * set_affinity followed by get_affinity: a request covering every online
   * processor reads back as the online set, and a one-to-one request to a
   * processor with its own PLIC context reads back as that processor added to
   * the caller's set.
   */
  lemma AffinityRoundTrip(requested: set<nat>, online: set<nat>, cpus: seq<PerCpu>, n: nat,
                          current: Option<nat>, affinity: set<nat>)
    requires n <= |cpus| && (forall c | c in online :: c < n) && DistinctBlocks(cpus, n)
    ensures var request := ClassifyAffinity(requested, online);
            request == Broadcast ==>
              AffinityReport(AffinityEntry(request, cpus, current), cpus, n, online, affinity) == online
    ensures var request := ClassifyAffinity(requested, online);
            request.Exclusive? && cpus[request.cpu].plicMie.Some? ==>
              AffinityReport(AffinityEntry(request, cpus, current), cpus, n, online, affinity) == affinity + {request.cpu}
    ensures var request := ClassifyAffinity(requested, online);
            request == Rejected ==> AffinityEntry(request, cpus, current) == current
  {
    var request := ClassifyAffinity(requested, online);
    if request.Exclusive? && cpus[request.cpu].plicMie.Some? {
      var c := request.cpu;
      LowestCpuWithBlockFound(cpus, c, n, cpus[c].plicMie.value);
    }
  }

  /**
   * A one-to-one request to a processor without a PLIC context stores NULL,
   * so the source silently becomes one-to-all and reads back as the online set.
   */
  lemma ExclusiveWithoutContextBroadcasts(requested: set<nat>, online: set<nat>, cpus: seq<PerCpu>, n: nat,
                                          current: Option<nat>, affinity: set<nat>)
    requires n <= |cpus| && (forall c | c in online :: c < n)
    requires ClassifyAffinity(requested, online).Exclusive?
    requires cpus[ClassifyAffinity(requested, online).cpu].plicMie.None?
    ensures AffinityEntry(ClassifyAffinity(requested, online), cpus, current) == None
    ensures AffinityReport(AffinityEntry(ClassifyAffinity(requested, online), cpus, current), cpus, n, online, affinity) == online
  {
  }
}
