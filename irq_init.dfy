/**
 * bsp_interrupt_facility_initialize: riscv_clint_init followed by
 * riscv_plic_init.
 *
 * The device tree is an input, already decoded: the address of each
 * controller node (or None when the node or its `reg` is missing), the bytes
 * of the PLIC's `riscv,ndev` property, and each node's `interrupts-extended`
 * property as a sequence of (hart index, interrupt) pairs, one pair per 8
 * bytes of the property (Devicetree Specification, section 2.4.1).  The hart
 * index is what riscv_get_hart_index_by_phandle() yields for the pair's
 * phandle.  A missing property is an empty sequence.
 */
module RiscvInit {
  import opened Optional
  import opened RiscvVectors
  import opened PlicBitmap
  import opened RiscvIrq

  type Byte = x: nat | x < 256

  /** One (hart, interrupt) pair of an `interrupts-extended` property. */
  datatype Cell = Cell(hart: nat, cause: nat)

  /** The device-tree facts the initialisation reads. */
  datatype DeviceTree = DeviceTree(
    clint: Option<nat>,             // address of the "riscv,clint0" node
    clintCells: seq<Cell>,          // its interrupts-extended
    plic: Option<nat>,              // address of the "riscv,plic0" node
    ndevProperty: Option<seq<Byte>>,  // its "riscv,ndev" property; None = absent
    plicCells: seq<Cell>)           // its interrupts-extended

  /** How the initialisation ends: normally, by the early return for an HTIF platform without PLIC, or in bsp_fatal(). */
  datatype InitOutcome = Initialized | PlicAbsent | Halted(code: FatalCode)

  /** fdt32_to_cpu of a 4-byte property: device-tree cells are big-endian. */
  function Fdt32(bytes: seq<Byte>): (r: nat)
    requires |bytes| == 4
    ensures r < 0x1_0000_0000
  {
    var b0: nat, b1: nat, b2: nat, b3: nat := bytes[0], bytes[1], bytes[2], bytes[3];
    ((b0 * 256 + b1) * 256 + b2) * 256 + b3
  }

  /**
   * The processor a listed hart is attached to, if any.  On SMP a hart is
   * skipped when its index is below the boot hart's or when it maps to a
   * processor beyond the configured maximum; on a uniprocessor only the boot
   * hart is attached, to processor 0.
   */
  function CpuOfHart(cfg: Config, hart: nat): (r: Option<nat>)
    requires !cfg.smp ==> cfg.maxProcessors >= 1
    ensures r.Some? ==> r.value < cfg.maxProcessors
    ensures cfg.smp ==> (r.Some? <==> hart >= cfg.bootHartId && cfg.hartToCpu(hart) < cfg.maxProcessors)
    ensures cfg.smp && r.Some? ==> r.value == cfg.hartToCpu(hart)
    ensures !cfg.smp ==> (r.Some? <==> hart == cfg.bootHartId) && (r.Some? ==> r.value == 0)
  {
    if cfg.smp then
      if hart < cfg.bootHartId then None
      else
        var cpu := cfg.hartToCpu(hart);
        if cpu >= cfg.maxProcessors then None else Some(cpu)
    else
      if hart != cfg.bootHartId then None else Some(0)
  }

  /**
   * The CLINT loop steps 16 bytes (two pairs) at a time over an `8 * |cells|`
   * byte property, so it visits ceil(|cells| / 2) entries; entry m uses the
   * hart of pair 2m and the CLINT registers msip[m] and mtimecmp[m].
   */
  function ClintEntries(cells: seq<Cell>): nat
  {
    (|cells| + 1) / 2
  }

  /** For each CLINT entry, the processor it is attached to. */
  function ClintOwners(cfg: Config, cells: seq<Cell>): (r: seq<Option<nat>>)
    requires !cfg.smp ==> cfg.maxProcessors >= 1
    ensures |r| == ClintEntries(cells)
  {
    seq(ClintEntries(cells), m requires 0 <= m < ClintEntries(cells) => CpuOfHart(cfg, cells[2 * m].hart))
  }

  /** For each PLIC context (pair k), the processor it is attached to: only machine-external pairs count. */
  function PlicOwners(cfg: Config, cells: seq<Cell>): (r: seq<Option<nat>>)
    requires !cfg.smp ==> cfg.maxProcessors >= 1
    ensures |r| == |cells|
  {
    seq(|cells|, k requires 0 <= k < |cells| =>
      if cells[k].cause == CauseMachineExternal then CpuOfHart(cfg, cells[k].hart) else None)
  }

  /** The last entry attached to processor `cpu`: the one whose pointers survive the loop. */
  function LastOwned(owners: seq<Option<nat>>, cpu: nat): (r: Option<nat>)
    ensures r.Some? ==> r.value < |owners| && owners[r.value] == Some(cpu)
    ensures r.Some? ==> forall k | r.value < k < |owners| :: owners[k] != Some(cpu)
    ensures r.None? ==> forall k | 0 <= k < |owners| :: owners[k] != Some(cpu)
  {
    if |owners| == 0 then None
    else if owners[|owners| - 1] == Some(cpu) then Some(|owners| - 1)
    else LastOwned(owners[..|owners| - 1], cpu)
  }

  lemma LastOwnedStep(owners: seq<Option<nat>>, m: nat, cpu: nat)
    requires m < |owners|
    ensures LastOwned(owners[..m + 1], cpu) ==
              if owners[m] == Some(cpu) then Some(m) else LastOwned(owners[..m], cpu)
  {
    assert owners[..m + 1][..m] == owners[..m];
  }

  /** A processor's CLINT pointers after the loop: the msip and mtimecmp of its last entry. */
  function ClintPointers(p: PerCpu, last: Option<nat>): PerCpu
  {
    match last
    case None => p
    case Some(m) => p.(clintMsip := Some(m), clintMtimecmp := Some(m))
  }

  /** A processor's PLIC pointers after the loop: the hart context and enable block of its last context. */
  function PlicPointers(p: PerCpu, last: Option<nat>): PerCpu
  {
    match last
    case None => p
    case Some(k) => p.(plicHartRegs := Some(k), plicMie := Some(WordsPerBlock * k))
  }

  /**
   * `mie_regs = (ndev + 0x1f) & ~0x1f` stored in a uint8_t: the source count
   * rounded up to a multiple of 32, truncated to 8 bits.  The loop uses it as
   * the number of 32-bit enable words to clear.
   */
  function MieRegs(ndev: nat): (r: nat)
    ensures r < 256
  {
    ((ndev + 31) - (ndev + 31) % 32) % 256
  }

  /** For 1 .. 224 sources, mie_regs is ndev rounded up to a multiple of 32. */
  lemma MieRegsCountsBits(ndev: nat)
    requires 1 <= ndev <= 224
    ensures MieRegs(ndev) == 32 * ((ndev + 31) / 32)
    ensures MieRegs(ndev) % 32 == 0 && ndev <= MieRegs(ndev) < ndev + 32
  {
  }

  /** For 33 .. 224 sources the loop clears more than the 32 words of a context's block. */
  lemma MieRegsOverrunsBlock(ndev: nat)
    requires 33 <= ndev <= 224
    ensures MieRegs(ndev) > WordsPerBlock
  {
  }

  /** For 225 .. 256 sources the 8-bit truncation makes mie_regs 0: no enable word is cleared. */
  lemma MieRegsTruncatesToZero(ndev: nat)
    requires 225 <= ndev <= 256
    ensures MieRegs(ndev) == 0
  {
  }

  /**
   * For 1 .. 224 sources, the cleared words include every word holding the
   * bit of a source 1 .. ndev, so every source starts disabled.
   */
  lemma MieRegsCoversSources(ndev: nat, index: nat)
    requires 1 <= ndev <= 224 && 1 <= index <= ndev
    ensures Group(index) < MieRegs(ndev)
  {
  }

  /** The broadcast blocks depend only on the processors' `plic_m_ie` pointers. */
  lemma {:induction false} BroadcastBlocksFrame(cpus: seq<PerCpu>, cpus': seq<PerCpu>, n: nat)
    requires n <= |cpus| == |cpus'|
    requires forall c | 0 <= c < n :: cpus[c].plicMie == cpus'[c].plicMie
    ensures BroadcastBlocks(cpus, n) == BroadcastBlocks(cpus', n)
  {
    if n > 0 {
      BroadcastBlocksFrame(cpus, cpus', n - 1);
    }
  }

  /** Word w lies in the first `mieRegs` words of the block of a context below n that is attached. */
  ghost predicate Cleared(owners: seq<Option<nat>>, n: nat, mieRegs: nat, w: nat)
    requires n <= |owners|
  {
    exists k :: 0 <= k < n && owners[k].Some? && WordsPerBlock * k <= w < WordsPerBlock * k + mieRegs
  }

  /**
   * riscv_clint_init.  Fatal without a CLINT; otherwise every attached
   * processor points at the msip and mtimecmp registers of the last CLINT
   * entry for its hart, and the others keep their pointers.
   */
  method ClintInit(c: InterruptController, dt: DeviceTree) returns (outcome: Option<FatalCode>)
    requires c.Valid() && ClintEntries(dt.clintCells) <= c.clintMsip.Length
    modifies c`cpus
    ensures c.Valid()
    ensures dt.clint.None? ==> outcome == Some(NoClintRegInDeviceTree) && c.cpus == old(c.cpus)
    ensures dt.clint.Some? ==> outcome.None? && |c.cpus| == |old(c.cpus)|
    ensures dt.clint.Some? ==> forall cpu | 0 <= cpu < |c.cpus| ::
              c.cpus[cpu] == ClintPointers(old(c.cpus)[cpu], LastOwned(ClintOwners(c.cfg, dt.clintCells), cpu))
  {
    if dt.clint.None? {
      return Some(NoClintRegInDeviceTree);
    }
    var cells := dt.clintCells;
    ghost var owners := ClintOwners(c.cfg, cells);
    ghost var before := c.cpus;
    var len := 8 * |cells|;
    var i := 0;
    ghost var m := 0;
    while i < len
      invariant i == 16 * m && m <= |owners|
      invariant |c.cpus| == |before|
      invariant forall cpu | 0 <= cpu < |c.cpus| :: c.cpus[cpu] == ClintPointers(before[cpu], LastOwned(owners[..m], cpu))
    {
      // val[i / 4] is the phandle cell of pair i / 8; the registers are entry i / 16
      var slot := i / 16;
      assert slot == m && i / 8 == 2 * m;
      var target := CpuOfHart(c.cfg, cells[i / 8].hart);
      assert target == owners[m];
      ghost var prev := c.cpus;
      if target.Some? {
        var cpu := target.value;
        c.cpus := c.cpus[cpu := c.cpus[cpu].(clintMsip := Some(slot), clintMtimecmp := Some(slot))];
      }
      forall cpu | 0 <= cpu < |c.cpus|
        ensures c.cpus[cpu] == ClintPointers(before[cpu], LastOwned(owners[..m + 1], cpu))
      {
        LastOwnedStep(owners, m, cpu);
        assert prev[cpu] == ClintPointers(before[cpu], LastOwned(owners[..m], cpu));
      }
      i := i + 16;
      m := m + 1;
    }
    assert owners[..m] == owners;
    BroadcastBlocksFrame(before, c.cpus, c.cpuMax);
    return None;
  }

  /** `plic_m_ie[j] = 0` for j < count, from word `base` of the enable region. */
  method ClearEnableWords(c: InterruptController, base: nat, count: nat)
    requires base + count <= c.plicEnable.Length
    modifies c.plicEnable
    ensures forall w | 0 <= w < c.plicEnable.Length ::
              c.plicEnable[w] == if base <= w < base + count then Zero else old(c.plicEnable[w])
  {
    var j := 0;
    while j < count
      invariant j <= count
      invariant forall w | 0 <= w < c.plicEnable.Length ::
                  c.plicEnable[w] == if base <= w < base + j then Zero else old(c.plicEnable[w])
    {
      c.plicEnable[base + j] := Zero;
      j := j + 1;
    }
  }

  /** Word w is cleared by the contexts below k + 1 iff by those below k or by context k. */
  lemma ClearedStep(owners: seq<Option<nat>>, k: nat, mieRegs: nat, w: nat)
    requires k < |owners|
    ensures Cleared(owners, k + 1, mieRegs, w) <==>
              Cleared(owners, k, mieRegs, w) || (owners[k].Some? && WordsPerBlock * k <= w < WordsPerBlock * k + mieRegs)
  {
    if owners[k].Some? && WordsPerBlock * k <= w < WordsPerBlock * k + mieRegs {
      assert Cleared(owners, k + 1, mieRegs, w);
    }
    if Cleared(owners, k + 1, mieRegs, w) && !Cleared(owners, k, mieRegs, w) {
      var j :| 0 <= j < k + 1 && owners[j].Some? && WordsPerBlock * j <= w < WordsPerBlock * j + mieRegs;
      assert j == k;
    }
  }

  /** The body of the context loop for a kept pair: attach context k to processor cpu. */
  method AttachContext(c: InterruptController, k: nat, cpu: nat, mieRegs: nat)
    requires c.Distinct()
    requires cpu < |c.cpus| && k < c.plicThreshold.Length
    requires WordsPerBlock * k + mieRegs <= c.plicEnable.Length
    modifies c`cpus, c.plicThreshold, c.plicEnable
    ensures c.cpus == old(c.cpus)[cpu := old(c.cpus)[cpu].(plicHartRegs := Some(k), plicMie := Some(WordsPerBlock * k))]
    ensures forall t | 0 <= t < c.plicThreshold.Length ::
              c.plicThreshold[t] == if t == k then 0 else old(c.plicThreshold[t])
    ensures forall w | 0 <= w < c.plicEnable.Length ::
              c.plicEnable[w] == if WordsPerBlock * k <= w < WordsPerBlock * k + mieRegs then Zero else old(c.plicEnable[w])
  {
    c.plicThreshold[k] := 0;
    c.cpus := c.cpus[cpu := c.cpus[cpu].(plicHartRegs := Some(k), plicMie := Some(WordsPerBlock * k))];
    ClearEnableWords(c, WordsPerBlock * k, mieRegs);
  }

  /**
   * The context loop of riscv_plic_init.  For every machine-external pair
   * whose hart is attached to a processor, the context's threshold becomes 0
   * and the first `mieRegs` enable words from the context's block are
   * cleared; every processor ends with the hart context and enable block of
   * the last such pair for it.
   */
  method AttachContexts(c: InterruptController, cells: seq<Cell>, mieRegs: nat)
    requires c.Distinct()
    requires |c.cpus| == c.cfg.maxProcessors >= 1
    requires |cells| <= c.plicThreshold.Length
    requires WordsPerBlock * |cells| + mieRegs <= c.plicEnable.Length
    modifies c`cpus, c.plicThreshold, c.plicEnable
    ensures |c.cpus| == |old(c.cpus)|
    ensures forall cpu | 0 <= cpu < |c.cpus| ::
              c.cpus[cpu] == PlicPointers(old(c.cpus)[cpu], LastOwned(PlicOwners(c.cfg, cells), cpu))
    ensures forall t | 0 <= t < c.plicThreshold.Length ::
              c.plicThreshold[t] == if t < |cells| && PlicOwners(c.cfg, cells)[t].Some? then 0 else old(c.plicThreshold[t])
    ensures forall w | 0 <= w < c.plicEnable.Length ::
              c.plicEnable[w] == if Cleared(PlicOwners(c.cfg, cells), |cells|, mieRegs, w) then Zero else old(c.plicEnable[w])
  {
    ghost var owners := PlicOwners(c.cfg, cells);
    ghost var before := c.cpus;
    var len := 8 * |cells|;
    var i := 0;
    ghost var k := 0;
    while i < len
      invariant i == 8 * k && k <= |cells|
      invariant |c.cpus| == |before|
      invariant forall cpu | 0 <= cpu < |c.cpus| :: c.cpus[cpu] == PlicPointers(before[cpu], LastOwned(owners[..k], cpu))
      invariant forall t | 0 <= t < c.plicThreshold.Length ::
                  c.plicThreshold[t] == if t < k && owners[t].Some? then 0 else old(c.plicThreshold[t])
      invariant forall w | 0 <= w < c.plicEnable.Length ::
                  c.plicEnable[w] == if Cleared(owners, k, mieRegs, w) then Zero else old(c.plicEnable[w])
    {
      // val[i / 4] and val[i / 4 + 1] are pair i / 8; the context is harts[i / 8]
      var context := i / 8;
      assert context == k;
      var target := CpuOfHart(c.cfg, cells[context].hart);
      ghost var prev := c.cpus;
      ghost var thresholds := c.plicThreshold[..];
      ghost var words := c.plicEnable[..];
      if target.Some? && cells[context].cause == CauseMachineExternal {
        AttachContext(c, context, target.value, mieRegs);
      }
      assert owners[k] == if target.Some? && cells[context].cause == CauseMachineExternal then target else None;
      forall cpu | 0 <= cpu < |c.cpus|
        ensures c.cpus[cpu] == PlicPointers(before[cpu], LastOwned(owners[..k + 1], cpu))
      {
        LastOwnedStep(owners, k, cpu);
        assert prev[cpu] == PlicPointers(before[cpu], LastOwned(owners[..k], cpu));
      }
      forall t | 0 <= t < c.plicThreshold.Length
        ensures c.plicThreshold[t] == if t < k + 1 && owners[t].Some? then 0 else old(c.plicThreshold[t])
      {
        assert thresholds[t] == if t < k && owners[t].Some? then 0 else old(c.plicThreshold[t]);
      }
      forall w | 0 <= w < c.plicEnable.Length
        ensures c.plicEnable[w] == if Cleared(owners, k + 1, mieRegs, w) then Zero else old(c.plicEnable[w])
      {
        ClearedStep(owners, k, mieRegs, w);
        assert words[w] == if Cleared(owners, k, mieRegs, w) then Zero else old(c.plicEnable[w]);
      }
      i := i + 8;
      k := k + 1;
    }
    assert owners[..k] == owners;
  }

  /**
   * The priority loop of riscv_plic_init: sources 1 .. ndev get priority 1
   * and a table entry naming processor 0's enable block (NULL when processor
   * 0 has no PLIC context).
   */
  method SetPriorities(c: InterruptController, ndev: nat)
    requires |c.cpus| >= 1 && ndev <= |c.irqToCpu| && ndev < c.plicPriority.Length
    modifies c.plicPriority, c`irqToCpu
    ensures |c.irqToCpu| == |old(c.irqToCpu)|
    ensures forall p | 0 <= p < c.plicPriority.Length ::
              c.plicPriority[p] == if 1 <= p <= ndev then 1 else old(c.plicPriority[p])
    ensures forall j | 0 <= j < |c.irqToCpu| ::
              c.irqToCpu[j] == if j < ndev then c.cpus[0].plicMie else old(c.irqToCpu[j])
  {
    var cpu := c.cpus[0];
    var index := 1;
    while index <= ndev
      invariant 1 <= index <= ndev + 1
      invariant |c.irqToCpu| == |old(c.irqToCpu)|
      invariant forall p | 0 <= p < c.plicPriority.Length ::
                  c.plicPriority[p] == if 1 <= p < index then 1 else old(c.plicPriority[p])
      invariant forall j | 0 <= j < |c.irqToCpu| ::
                  c.irqToCpu[j] == if j < index - 1 then cpu.plicMie else old(c.irqToCpu[j])
    {
      c.plicPriority[index] := 1;
      c.irqToCpu := c.irqToCpu[index - 1 := cpu.plicMie];
      index := index + 1;
    }
  }

  /** Attaching contexts that exist keeps every processor's pointers inside the register arrays. */
  lemma AttachedPointersValid(c: InterruptController, before: seq<PerCpu>, owners: seq<Option<nat>>)
    requires |owners| <= c.plicThreshold.Length && WordsPerBlock * |owners| <= c.plicEnable.Length
    requires |c.cpus| == |before| && forall cpu | 0 <= cpu < |before| :: c.ValidCpu(before[cpu])
    requires forall cpu | 0 <= cpu < |c.cpus| :: c.cpus[cpu] == PlicPointers(before[cpu], LastOwned(owners, cpu))
    ensures forall cpu | 0 <= cpu < |c.cpus| :: c.ValidCpu(c.cpus[cpu])
  {
    forall cpu | 0 <= cpu < |c.cpus|
      ensures c.ValidCpu(c.cpus[cpu])
    {
      var last := LastOwned(owners, cpu);
      if last.Some? {
        ContextBlock(last.value, |owners|);
      }
    }
  }

  /** The block of context k starts at an aligned word and ends within the blocks of n > k contexts. */
  lemma ContextBlock(k: nat, n: nat)
    requires k < n
    ensures (WordsPerBlock * k) % WordsPerBlock == 0
    ensures WordsPerBlock * k + WordsPerBlock <= WordsPerBlock * n
  {
  }

  /** riscv_plic_init once `ndev` is accepted: the context loop, the priority loop and `set_csr(mie, MIP_MEIP)`. */
  method ConfigureContexts(c: InterruptController, cells: seq<Cell>, ndev: nat)
    requires c.Distinct() && |c.cpus| == c.cfg.maxProcessors >= 1
    requires ndev <= |c.irqToCpu| && ndev < c.plicPriority.Length
    requires forall j | 0 <= j < |c.irqToCpu| :: c.irqToCpu[j].None?
    requires |cells| <= c.plicThreshold.Length
    requires WordsPerBlock * |cells| + 256 <= c.plicEnable.Length
    modifies c`cpus, c`irqToCpu, c`mie, c.plicThreshold, c.plicEnable, c.plicPriority
    ensures |c.cpus| == |old(c.cpus)|
    ensures forall cpu | 0 <= cpu < |c.cpus| ::
              c.cpus[cpu] == PlicPointers(old(c.cpus)[cpu], LastOwned(PlicOwners(c.cfg, cells), cpu))
    ensures forall t | 0 <= t < c.plicThreshold.Length ::
              c.plicThreshold[t] == if t < |cells| && PlicOwners(c.cfg, cells)[t].Some? then 0 else old(c.plicThreshold[t])
    ensures forall w | 0 <= w < c.plicEnable.Length ::
              c.plicEnable[w] ==
                if Cleared(PlicOwners(c.cfg, cells), |cells|, MieRegs(ndev), w) then Zero else old(c.plicEnable[w])
    ensures forall p | 0 <= p < c.plicPriority.Length ::
              c.plicPriority[p] == if 1 <= p <= ndev then 1 else old(c.plicPriority[p])
    ensures |c.irqToCpu| == |old(c.irqToCpu)|
    ensures forall j | 0 <= j < |c.irqToCpu| :: c.irqToCpu[j] == if j < ndev then c.cpus[0].plicMie else None
    ensures c.mie == old(c.mie) | MipMeip
  {
    ghost var before := c.cpus;
    assert c.Distinct();
    AttachContexts(c, cells, MieRegs(ndev));
    ghost var thresholds, words := c.plicThreshold[..], c.plicEnable[..];
    SetPriorities(c, ndev);
    assert c.plicThreshold[..] == thresholds && c.plicEnable[..] == words;
    c.mie := c.mie | MipMeip;
  }

  /** The `riscv,ndev` property is present, one cell long, and within RISCV_MAXIMUM_EXTERNAL_INTERRUPTS. */
  predicate NdevAccepted(dt: DeviceTree, maxExternal: nat)
  {
    dt.ndevProperty.Some? && |dt.ndevProperty.value| == 4 && Fdt32(dt.ndevProperty.value) <= maxExternal
  }

  /** The number of PLIC sources, once the property is accepted. */
  function Ndev(dt: DeviceTree): nat
    requires dt.ndevProperty.Some? && |dt.ndevProperty.value| == 4
  {
    Fdt32(dt.ndevProperty.value)
  }

  /**
   * riscv_plic_init.  Without a PLIC it returns on an HTIF platform and is
   * fatal otherwise; an absent or malformed `riscv,ndev`, or one above the
   * configured maximum, is fatal; these checks come before any register
   * write.  Otherwise every attached hart context gets threshold 0 and
   * cleared enable words, every processor the pointers of its last context,
   * sources 1 .. ndev priority 1 and a table entry naming processor 0's
   * block, and mie.MEIP is set.
   */
  method PlicInit(c: InterruptController, dt: DeviceTree) returns (outcome: InitOutcome)
    requires c.Valid()
    requires forall j | 0 <= j < |c.irqToCpu| :: c.irqToCpu[j].None?
    requires |dt.plicCells| <= c.plicThreshold.Length
    requires WordsPerBlock * |dt.plicCells| + 256 <= c.plicEnable.Length
    modifies c`cpus, c`irqToCpu, c`mie, c.plicThreshold, c.plicEnable, c.plicPriority
    ensures c.Valid()
    ensures dt.plic.None? ==> outcome == if c.cfg.htifSupport then PlicAbsent else Halted(NoPlicRegInDeviceTree)
    ensures dt.plic.Some? && !(dt.ndevProperty.Some? && |dt.ndevProperty.value| == 4) ==>
              outcome == Halted(InvalidPlicNdevInDeviceTree)
    ensures dt.plic.Some? && dt.ndevProperty.Some? && |dt.ndevProperty.value| == 4 ==>
              outcome == if Ndev(dt) > c.cfg.maxExternal then Halted(TooLargePlicNdevInDeviceTree) else Initialized
    ensures outcome != Initialized ==>
              c.cpus == old(c.cpus) && c.irqToCpu == old(c.irqToCpu) && c.mie == old(c.mie) &&
              unchanged(c.plicThreshold, c.plicEnable, c.plicPriority)
    ensures outcome == Initialized ==> NdevAccepted(dt, c.cfg.maxExternal) && |c.cpus| == |old(c.cpus)|
    ensures outcome == Initialized ==> forall cpu | 0 <= cpu < |c.cpus| ::
              c.cpus[cpu] == PlicPointers(old(c.cpus)[cpu], LastOwned(PlicOwners(c.cfg, dt.plicCells), cpu))
    ensures outcome == Initialized ==> forall t | 0 <= t < c.plicThreshold.Length ::
              c.plicThreshold[t] ==
                if t < |dt.plicCells| && PlicOwners(c.cfg, dt.plicCells)[t].Some? then 0 else old(c.plicThreshold[t])
    ensures outcome == Initialized ==> forall w | 0 <= w < c.plicEnable.Length ::
              c.plicEnable[w] ==
                if Cleared(PlicOwners(c.cfg, dt.plicCells), |dt.plicCells|, MieRegs(Ndev(dt)), w) then Zero
                else old(c.plicEnable[w])
    ensures outcome == Initialized ==> forall p | 0 <= p < c.plicPriority.Length ::
              c.plicPriority[p] == if 1 <= p <= Ndev(dt) then 1 else old(c.plicPriority[p])
    ensures outcome == Initialized ==> forall j | 0 <= j < |c.irqToCpu| ::
              c.irqToCpu[j] == if j < Ndev(dt) then c.cpus[0].plicMie else None
    ensures outcome == Initialized ==> c.mie == old(c.mie) | MipMeip
  {
    if dt.plic.None? {
      if c.cfg.htifSupport {
        return PlicAbsent;
      }
      return Halted(NoPlicRegInDeviceTree);
    }
    if dt.ndevProperty.None? || |dt.ndevProperty.value| != 4 {
      return Halted(InvalidPlicNdevInDeviceTree);
    }
    var ndev := Fdt32(dt.ndevProperty.value);
    if ndev > c.cfg.maxExternal {
      return Halted(TooLargePlicNdevInDeviceTree);
    }
    ghost var before := c.cpus;
    ConfigureContexts(c, dt.plicCells, ndev);
    AttachedPointersValid(c, before, PlicOwners(c.cfg, dt.plicCells));
    if c.cpus[0].plicMie.Some? {
      BroadcastBlocksMembers(c.cpus, c.cpuMax, c.cpus[0].plicMie.value);
    }
    return Initialized;
  }

  /**
   * bsp_interrupt_facility_initialize, from the boot state (an all-NULL
   * table): riscv_clint_init, then riscv_plic_init unless the former was
   * fatal.
   */
  method FacilityInitialize(c: InterruptController, dt: DeviceTree) returns (outcome: InitOutcome)
    requires c.Valid()
    requires forall j | 0 <= j < |c.irqToCpu| :: c.irqToCpu[j].None?
    requires ClintEntries(dt.clintCells) <= c.clintMsip.Length
    requires |dt.plicCells| <= c.plicThreshold.Length
    requires WordsPerBlock * |dt.plicCells| + 256 <= c.plicEnable.Length
    modifies c`cpus, c`irqToCpu, c`mie, c.plicThreshold, c.plicEnable, c.plicPriority
    ensures c.Valid()
    ensures dt.clint.None? ==> outcome == Halted(NoClintRegInDeviceTree) && c.cpus == old(c.cpus)
    ensures dt.clint.Some? && dt.plic.None? ==>
              outcome == if c.cfg.htifSupport then PlicAbsent else Halted(NoPlicRegInDeviceTree)
    ensures dt.clint.Some? && dt.plic.Some? && !(dt.ndevProperty.Some? && |dt.ndevProperty.value| == 4) ==>
              outcome == Halted(InvalidPlicNdevInDeviceTree)
    ensures dt.clint.Some? && dt.plic.Some? && dt.ndevProperty.Some? && |dt.ndevProperty.value| == 4 ==>
              outcome == if Ndev(dt) > c.cfg.maxExternal then Halted(TooLargePlicNdevInDeviceTree) else Initialized
    ensures outcome != Initialized ==>
              c.irqToCpu == old(c.irqToCpu) && c.mie == old(c.mie) &&
              unchanged(c.plicThreshold, c.plicEnable, c.plicPriority)
    ensures dt.clint.Some? && outcome != Initialized ==> |c.cpus| == |old(c.cpus)| && forall cpu | 0 <= cpu < |c.cpus| ::
              c.cpus[cpu] == ClintPointers(old(c.cpus)[cpu], LastOwned(ClintOwners(c.cfg, dt.clintCells), cpu))
    ensures outcome == Initialized ==> NdevAccepted(dt, c.cfg.maxExternal) && |c.cpus| == |old(c.cpus)|
    ensures outcome == Initialized ==> forall cpu | 0 <= cpu < |c.cpus| ::
              c.cpus[cpu] == PlicPointers(ClintPointers(old(c.cpus)[cpu], LastOwned(ClintOwners(c.cfg, dt.clintCells), cpu)),
                                          LastOwned(PlicOwners(c.cfg, dt.plicCells), cpu))
    ensures outcome == Initialized ==> forall t | 0 <= t < c.plicThreshold.Length ::
              c.plicThreshold[t] ==
                if t < |dt.plicCells| && PlicOwners(c.cfg, dt.plicCells)[t].Some? then 0 else old(c.plicThreshold[t])
    ensures outcome == Initialized ==> forall w | 0 <= w < c.plicEnable.Length ::
              c.plicEnable[w] ==
                if Cleared(PlicOwners(c.cfg, dt.plicCells), |dt.plicCells|, MieRegs(Ndev(dt)), w) then Zero
                else old(c.plicEnable[w])
    ensures outcome == Initialized ==> forall j | 0 <= j < |c.irqToCpu| ::
              c.irqToCpu[j] == if j < Ndev(dt) then c.cpus[0].plicMie else None
    ensures outcome == Initialized ==> forall p | 0 <= p < c.plicPriority.Length ::
              c.plicPriority[p] == if 1 <= p <= Ndev(dt) then 1 else old(c.plicPriority[p])
    ensures outcome == Initialized ==> c.mie == old(c.mie) | MipMeip
  {
    var fatal := ClintInit(c, dt);
    if fatal.Some? {
      return Halted(fatal.value);
    }
    outcome := PlicInit(c, dt);
  }

  /**
   * After initialisation every source 1 .. ndev is routed to processor 0:
   * get_affinity reports processor 0 added to the caller's set, or the
   * online set when processor 0 got no PLIC context.
   */
  lemma InitialAffinity(cpus: seq<PerCpu>, n: nat, online: set<nat>, affinity: set<nat>)
    requires 1 <= n <= |cpus|
    ensures cpus[0].plicMie.Some? ==> AffinityReport(cpus[0].plicMie, cpus, n, online, affinity) == affinity + {0}
    ensures cpus[0].plicMie.None? ==> AffinityReport(cpus[0].plicMie, cpus, n, online, affinity) == online
  {
    if cpus[0].plicMie.Some? {
      LowestCpuWithBlockFound(cpus, 0, n, cpus[0].plicMie.value);
    }
  }

  /**
   * Starting from NULL pointers, the context loop gives distinct processors
   * distinct enable blocks, as AffinityRoundTrip needs.
   */
  lemma AttachedBlocksDistinct(before: seq<PerCpu>, after: seq<PerCpu>, owners: seq<Option<nat>>)
    requires |after| == |before| && forall c | 0 <= c < |before| :: before[c].plicMie.None?
    requires forall c | 0 <= c < |after| :: after[c] == PlicPointers(before[c], LastOwned(owners, c))
    ensures DistinctBlocks(after, |after|)
  {
    forall c, d | 0 <= c < d < |after| && after[c].plicMie.Some?
      ensures after[c].plicMie != after[d].plicMie
    {
      var kc := LastOwned(owners, c);
      var kd := LastOwned(owners, d);
      if kd.Some? {
        assert kc.value != kd.value;
      }
    }
  }

  /** Block b is the enable block of a context that the context loop attached. */
  predicate AttachedBlock(owners: seq<Option<nat>>, b: nat)
  {
    b % WordsPerBlock == 0 && b / WordsPerBlock < |owners| && owners[b / WordsPerBlock].Some?
  }

  /** Starting from NULL pointers, every enable block a processor ends with is that of an attached context. */
  lemma AttachedBlocksOnly(before: seq<PerCpu>, cpus: seq<PerCpu>, owners: seq<Option<nat>>)
    requires |cpus| == |before| && forall c | 0 <= c < |before| :: before[c].plicMie.None?
    requires forall c | 0 <= c < |cpus| :: cpus[c] == PlicPointers(before[c], LastOwned(owners, c))
    ensures forall c | 0 <= c < |cpus| && cpus[c].plicMie.Some? :: AttachedBlock(owners, cpus[c].plicMie.value)
  {
    forall c | 0 <= c < |cpus| && cpus[c].plicMie.Some?
      ensures AttachedBlock(owners, cpus[c].plicMie.value)
    {
      var k := LastOwned(owners, c).value;
      ContextBlock(k, |owners|);
      assert cpus[c].plicMie.value / WordsPerBlock == k;
    }
  }

  /**
   * After the context loop, a source whose word lies within the `mieRegs`
   * cleared words (every source 1 .. ndev when ndev is at most 224, by
   * MieRegsCoversSources) is disabled on every processor whose block is
   * that of an attached context.
   */
  lemma InitialSourcesDisabled(words: seq<Word>, cpus: seq<PerCpu>, n: nat,
                               owners: seq<Option<nat>>, mieRegs: nat, index: nat)
    requires n <= |cpus|
    requires forall c | 0 <= c < n && cpus[c].plicMie.Some? :: AttachedBlock(owners, cpus[c].plicMie.value)
    requires forall w | 0 <= w < |words| && Cleared(owners, |owners|, mieRegs, w) :: words[w] == Zero
    requires Group(index) < mieRegs
    ensures !EnabledAnywhere(words, cpus, n, index)
  {
    forall b | b in BroadcastBlocks(cpus, n) && b + Group(index) < |words|
      ensures !IsSet(words, b, index)
    {
      BroadcastBlocksMembers(cpus, n, b);
      var k := b / WordsPerBlock;
      assert WordsPerBlock * k == b;
      assert Cleared(owners, |owners|, mieRegs, b + Group(index));
    }
  }
}
