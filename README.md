# RTEMS RISC-V interrupt support and uC5282 clock arithmetic, in Dafny

This project models two pieces of RTEMS board-support code and proves what
they promise.

**The RISC-V interrupt controller driver** (`bsps/riscv/riscv/irq/irq.c`)
drives the CLINT (core-local interruptor: the per-hart `msip` software
interrupt registers) and the PLIC (platform-level interrupt controller: source
priorities, a pending bitmap, per-hart-context enable bitmaps, priority
thresholds and claim/complete registers).

- `RiscvVectors` (vectors.dfy) holds the vector numbering. Vector 0 is the
  software vector, vector 1 the timer vector, and PLIC source i is vector
  i + 2. It also holds the valid-vector predicate, the attributes and the
  status codes.
- `PlicBitmap` (plic_bitmap.dfy) holds the bit-group arithmetic of the
  bitmaps. `group = index / 32` and `bit = 1 << (index % 32)`. It proves
  exactly which words and bits a set or a clear changes.
- `RiscvIrq` (irq.dfy) has the class `InterruptController`:
  - the register model, as arrays;
  - the per-processor pointers, as a `seq<PerCpu>`;
  - the affinity table `riscv_plic_irq_to_cpu`, as a `seq<Option<nat>>`;
  - the `mie`/`mip` CSRs.

  Its methods are the vector-control operations. Lemmas relate them: enable
  then is-enabled, disable then is-enabled, set-affinity then get-affinity.
- `RiscvDispatch` (irq_dispatch.dfy) is the machine trap handler. It
  classifies `mcause` by its low XLEN-1 bits, then runs the PLIC claim,
  dispatch, complete loop until the claim register yields 0. The values the
  claim register yields are an input sequence. The dispatches, completion
  writes, inter-processor interrupt and fatal error are an output trace.
- `RiscvInit` (irq_init.dfy) is `bsp_interrupt_facility_initialize`.
  - `riscv_clint_init` attaches each processor to the `msip`/`mtimecmp` of
    its last CLINT entry.
  - `riscv_plic_init` validates `riscv,ndev` and gives every attached hart
    context threshold 0 and cleared enable words. It points every processor
    at its last context, gives sources 1 .. ndev priority 1, points their
    table entries at processor 0's enable block, and sets `mie.MEIP`.

**The uC5282 (ColdFire) clock driver**
(`c/src/lib/libbsp/m68k/uC5282/clock/clock.c`) is modelled in `Uc5282Clock`
(clock.dfy). It covers:

- the nanoseconds-since-last-tick computation from 16-bit down-counter
  readings;
- the idle bookkeeping at each tick;
- the CPU-load percentage;
- the prescaler loop and the modulus register.

`BitArith` (arith.dfy) and `Optional` (optional.dfy) are small shared helpers.

## How the model represents the hardware

**A 32-bit PLIC bitmap register is a `set<nat>`.** The set holds the positions
0 .. 31 of its one bits. This is exact for the operations the driver uses:

- `w |= bit` is `w + {i}`;
- `w &= ~bit` is `w - {i}`;
- `(w & bit) != 0` is `w * {i} != {}`.

The `mie`/`mip` CSRs, whose individual named bits the driver sets and tests,
stay `bv64`.

**The enable region is one flat array of words.** Hart context k owns the 32
words from word 32·k (`plic->enable[k][0]`). A `plic_m_ie` pointer, and a
table entry, is the word offset of a block's first word, so two pointers are
equal exactly when their offsets are. NULL is `None`. This keeps two behaviours
of the code that a processor-index table could not express:

- a set-affinity to a processor without a PLIC context stores NULL, which
  silently makes the source one-to-all (`ExclusiveWithoutContextBroadcasts`);
- `mie_regs` enable words are cleared from a context's block start, and can
  run into the following contexts' blocks (`MieRegsOverrunsBlock`).

**`mie_regs` is modelled as written.** `MieRegs(ndev)` is
`((ndev + 31) & ~31) % 256` and is used as a count of words. For 1 .. 224
sources it is the source count rounded up to a multiple of 32; read as a
number of words, that is more than a 32-word block for 33 or more sources. For 225 .. 256 sources the `uint8_t` truncation
makes it 0. The lemmas `MieRegsCountsBits`, `MieRegsOverrunsBlock`,
`MieRegsTruncatesToZero` and `MieRegsCoversSources` state these cases.
`InitialSourcesDisabled` shows that every source whose word lies within the
cleared words starts disabled on every attached processor.

**After initialisation the table is exclusive to processor 0, not NULL.**
Every entry 1 .. ndev names processor 0's block, or is NULL when processor 0
got no PLIC context. `InitialAffinity` states what get-affinity then reports.

**Disabling after narrowing the affinity leaves other processors enabled.** A
source enabled one-to-all and then narrowed to one processor is disabled only
in that processor's block. `DisableExclusiveLeavesOthers` states that
is-enabled stays true exactly when another processor still has the bit set.

**The device tree is an already-decoded input** (`DeviceTree`). It gives:

- each controller's address, or `None`;
- the raw bytes of `riscv,ndev`, decoded big-endian by `Fdt32`;
- each `interrupts-extended` property as (hart index, interrupt) pairs, one
  pair per 8 bytes.

The CLINT loop steps 16 bytes, so its entry m reads pair 2m and registers
`msip[m]`/`mtimecmp[m]`. The PLIC loop steps 8 bytes: context k is pair k.
Hart-to-processor mapping (`_RISCV_Map_hardid_to_cpu_index`) is a function
parameter of `Config`. So are the build options `RTEMS_SMP` and
`RISCV_ENABLE_HTIF_SUPPORT`, the boot hart id, the processor maximum and the
width of `mcause`. Both the SMP and the uniprocessor branches are modelled.

**C integer semantics in the clock driver.** `uint32_t` arithmetic is written
out modulo 2^32. Signed `int` overflow is undefined behaviour, so operations
that could overflow require that they do not, intermediate sums included (the
one exception, a negative maximum in `LoadPercentage`, is listed under
"Left out"). C's `/` truncates toward zero
(`CDiv`). `>>` of a non-negative `int` is floor division.

**Checking the proofs.** All `.dfy` files form one program and are verified
together, with the options
`dafny verify --resource-limit 2000000 --verification-time-limit 0 --warn-contradictory-assumptions *.dfy`;
some methods, `VectorDisable` among them, need more than the default
30-second time limit.

## Model

| member | source | states |
|---|---|---|
| RiscvVectors.ExternalRoundTrip | bsps/riscv/riscv/irq/irq.c:327-332 | source index to external vector and back is the identity, and the only non-external vectors are the software and timer vectors |
| RiscvVectors.ValidVectors | bsps/riscv/riscv/irq/irq.c:283-294 | a vector is valid iff it is the software vector, the timer vector, or the vector of a PLIC source 1 .. max-1: external source 0 and every vector at or above the count are rejected |
| RiscvVectors.ValidExternalIndex | bsps/riscv/riscv/irq/irq.c:283-294 | a valid external vector's source index is in 1 .. max-1, so `interrupt_index - 1` is a table index |
| RiscvVectors.GetAttributes | bsps/riscv/riscv/irq/irq.c:296-317 | always successful; maskable, enable/disable capable and cleared by acknowledge; can-raise iff software vector; affinity capable iff external; trigger signal becomes no-signal only for the software vector |
| RiscvVectors.AttributesAgreeWithOperations | bsps/riscv/riscv/irq/irq.c:306-310 | can-raise holds exactly when raise succeeds, and can-set-affinity exactly when the affinity operations do not answer UNSATISFIED |
| PlicBitmap.BitsDistinct | bsps/riscv/riscv/irq/irq.c:333-334 | two sources share a bit of a word iff they are equal modulo 32 |
| PlicBitmap.SetSourceEffect | bsps/riscv/riscv/irq/irq.c:457-463 | after setting the bit in a set of blocks, a (block, source) bit is set iff it was already set or it is that source in one of those blocks: nothing else changes |
| PlicBitmap.ClearSourceEffect | bsps/riscv/riscv/irq/irq.c:520-526 | after clearing the bit in a set of blocks, a (block, source) bit is set iff it was set and is not that source in one of those blocks |
| PlicBitmap.ClearAfterSet | bsps/riscv/riscv/irq/irq.c:444-568 | disabling after enabling restores the enable words when the bit was clear in every target block |
| PlicBitmap.SetAfterClear | bsps/riscv/riscv/irq/irq.c:444-568 | enabling after disabling restores the enable words when the bit was set in every target block |
| PlicBitmap.NoBlocks | bsps/riscv/riscv/irq/irq.c:484-489 | with no target block (processor 0 has no context on a uniprocessor) enable and disable change nothing |
| RiscvIrq.BroadcastBlocksMembers | bsps/riscv/riscv/irq/irq.c:471-480 | the blocks the one-to-all loop touches are exactly the non-NULL `plic_m_ie` of processors below the maximum |
| RiscvIrq.ClassifyAffinity | bsps/riscv/riscv/irq/irq.c:582-599 | a request covering every online processor is one-to-all; a request whose intersection with the online set is one processor is one-to-one to it; anything else is rejected |
| RiscvIrq.LowestCpuWithBlock | bsps/riscv/riscv/irq/irq.c:617-632 | the first processor whose `plic_m_ie` equals the entry, and no lower one has it; None iff no processor below the maximum has it |
| RiscvIrq.LowestCpuWithBlockFound | bsps/riscv/riscv/irq/irq.c:623-631 | the search loop's break at the first matching processor yields that processor |
| RiscvIrq.InterruptController.constructor | bsps/riscv/riscv/irq/irq.c:66-67 | the boot state: all processor pointers NULL, every table entry NULL, `mie` clear |
| RiscvIrq.InterruptController.IsPending | bsps/riscv/riscv/irq/irq.c:319-347 | external: the source's bit of the PLIC pending bitmap; timer: `mip.MTIP`; software: `mip.MSIP`; always successful |
| RiscvIrq.InterruptController.IsEnabled | bsps/riscv/riscv/irq/irq.c:388-442 | external: true iff some processor below the maximum with a non-NULL `plic_m_ie` has the source's bit set; timer/software: `mie.MTIP`/`mie.MSIP` |
| RiscvIrq.InterruptController.SetInBlock | bsps/riscv/riscv/irq/irq.c:462-463 | the enable words become exactly those with the source set in the one named block |
| RiscvIrq.InterruptController.ClearInBlock | bsps/riscv/riscv/irq/irq.c:525-526 | the enable words become exactly those with the source cleared in the one named block |
| RiscvIrq.InterruptController.SetInEveryBlock | bsps/riscv/riscv/irq/irq.c:465-480 | the processor loop sets the source in exactly the blocks of the processors with a context |
| RiscvIrq.InterruptController.ClearInEveryBlock | bsps/riscv/riscv/irq/irq.c:528-543 | the processor loop clears the source in exactly the blocks of the processors with a context |
| RiscvIrq.InterruptController.VectorEnable | bsps/riscv/riscv/irq/irq.c:444-505 | external: the source is set in the block the table entry names, or in every processor's block for NULL, all else unchanged; timer/software: only `mie.MTIP`/`mie.MSIP` is set; always successful |
| RiscvIrq.InterruptController.VectorDisable | bsps/riscv/riscv/irq/irq.c:507-568 | the mirror image of enable: the same bit cleared in the same blocks, or `mie.MTIP`/`mie.MSIP` cleared |
| RiscvIrq.InterruptController.RiscvRaiseOn | bsps/riscv/riscv/irq/irq.c:349-365 | a non-software vector is UNSATISFIED with no write; the software vector sets exactly the target processor's `msip` to 1 and succeeds |
| RiscvIrq.InterruptController.Raise | bsps/riscv/riscv/irq/irq.c:367-370 | raise on the executing processor, with the same outcome |
| RiscvIrq.InterruptController.RaiseOn | bsps/riscv/riscv/irq/irq.c:372-380 | raise on the given processor, with the same outcome |
| RiscvIrq.InterruptController.Clear | bsps/riscv/riscv/irq/irq.c:382-386 | always UNSATISFIED, and modifies nothing |
| RiscvIrq.InterruptController.SetAffinity | bsps/riscv/riscv/irq/irq.c:571-603 | UNSATISFIED exactly when `AffinityStatus` says so (non-external), table unchanged; external: only that entry changes, to NULL (all online), the chosen processor's `plic_m_ie` (exactly one), or not at all with INVALID_NUMBER |
| RiscvIrq.InterruptController.GetAffinity | bsps/riscv/riscv/irq/irq.c:605-641 | the status is `AffinityStatus`: non-external UNSATISFIED, set unchanged; external: the online set for NULL, else the caller's set plus the lowest processor whose block the entry names |
| RiscvIrq.EnableMakesEnabled | bsps/riscv/riscv/irq/irq.c:388-495 | after enable, is-enabled reports true whenever some processor has a context and the entry names one of their blocks |
| RiscvIrq.DisableBroadcastDisables | bsps/riscv/riscv/irq/irq.c:388-558 | after a one-to-all disable, is-enabled reports false |
| RiscvIrq.DisableExclusiveLeavesOthers | bsps/riscv/riscv/irq/irq.c:525-526 | after a one-to-one disable, is-enabled is true iff some other processor's block still has the bit |
| RiscvIrq.AffinityRoundTrip | bsps/riscv/riscv/irq/irq.c:571-641 | set-affinity then get-affinity: all-online reads back as the online set, one processor with a context reads back as the caller's set plus it, a rejected request leaves the entry |
| RiscvIrq.ExclusiveWithoutContextBroadcasts | bsps/riscv/riscv/irq/irq.c:589-596 | a one-to-one request to a processor without a PLIC context stores NULL and reads back as the online set |
| RiscvDispatch.ClassifyByExceptionCode | bsps/riscv/riscv/irq/irq.c:73-101 | shifting `mcause` left by one and comparing with the doubled codes classifies it exactly by its low XLEN-1 bits |
| RiscvDispatch.InterruptBitIgnored | bsps/riscv/riscv/irq/irq.c:73-77 | the interrupt bit (the top bit of `mcause`) does not change the branch taken |
| RiscvDispatch.DrainClaims | bsps/riscv/riscv/irq/irq.c:87-100 | the loop stops at the first 0 claimed; for each earlier claim c it dispatches `EXTERNAL(c)` and then writes c to claim/complete, in order, and does nothing else |
| RiscvDispatch.ClaimsCompletedInOrder | bsps/riscv/riscv/irq/irq.c:87-93 | the sources completed are exactly the sources claimed, in claim order |
| RiscvDispatch.FirstZero | bsps/riscv/riscv/irq/irq.c:87 | the position of the first 0 the claim register yields |
| RiscvDispatch.ClaimEventsOnly | bsps/riscv/riscv/irq/irq.c:87-100 | the loop produces only handler dispatches and completions |
| RiscvDispatch.InterruptDispatch | bsps/riscv/riscv/irq/irq.c:71-117 | timer: dispatches only the timer vector; external: the trace is exactly dispatch then completion of each claim before the first 0, in order; software on SMP: the trace is the clearing of this processor's `msip` followed by the IPI handler; software on a uniprocessor: dispatches the software vector; anything else: fatal |
| RiscvInit.Fdt32 | bsps/riscv/riscv/irq/irq.c:198 | a 4-byte big-endian cell decodes to a value below 2^32 |
| RiscvInit.CpuOfHart | bsps/riscv/riscv/irq/irq.c:143-159 | SMP: a hart is attached iff its id is at least the boot hart id and it maps below the processor maximum, to that processor; uniprocessor: only the boot hart, to processor 0 |
| RiscvInit.ClintOwners | bsps/riscv/riscv/irq/irq.c:138-142 | one CLINT entry per 16 bytes of the property |
| RiscvInit.PlicOwners | bsps/riscv/riscv/irq/irq.c:205-229 | one context per 8-byte pair; only machine-external pairs of attached harts own one |
| RiscvInit.LastOwned | bsps/riscv/riscv/irq/irq.c:138-165 | the last entry attached to a processor (the one whose pointers survive the loop), or None iff none is |
| RiscvInit.MieRegs | bsps/riscv/riscv/irq/irq.c:213 | `mie_regs` fits a `uint8_t` |
| RiscvInit.MieRegsCountsBits | bsps/riscv/riscv/irq/irq.c:209-213 | for 1 .. 224 sources it is the source count rounded up to a multiple of 32 |
| RiscvInit.MieRegsOverrunsBlock | bsps/riscv/riscv/irq/irq.c:237-239 | for 33 .. 224 sources the clearing loop covers more than one 32-word block |
| RiscvInit.MieRegsTruncatesToZero | bsps/riscv/riscv/irq/irq.c:207-213 | for 225 .. 256 sources the truncation makes it 0, so no enable word is cleared |
| RiscvInit.MieRegsCoversSources | bsps/riscv/riscv/irq/irq.c:237-239 | for 1 .. 224 sources the cleared words include the word of every source 1 .. ndev |
| RiscvInit.ClintInit | bsps/riscv/riscv/irq/irq.c:119-166 | fatal without a CLINT, with nothing changed; otherwise each processor gets the `msip`/`mtimecmp` of its last CLINT entry and others keep their pointers |
| RiscvInit.ClearEnableWords | bsps/riscv/riscv/irq/irq.c:237-239 | exactly the `count` words from the block start become 0 |
| RiscvInit.AttachContext | bsps/riscv/riscv/irq/irq.c:231-239 | one kept pair: that context's threshold 0, the processor's hart-regs and enable pointers set to context k, its `mie_regs` words cleared, nothing else |
| RiscvInit.AttachContexts | bsps/riscv/riscv/irq/irq.c:205-258 | the context loop: thresholds 0 and words cleared for exactly the kept contexts, and each processor points at its last kept context |
| RiscvInit.SetPriorities | bsps/riscv/riscv/irq/irq.c:260-265 | sources 1 .. ndev get priority 1 and a table entry equal to processor 0's `plic_m_ie`; everything else unchanged |
| RiscvInit.AttachedPointersValid | bsps/riscv/riscv/irq/irq.c:231-235 | the pointers the context loop stores lie within the register arrays |
| RiscvInit.ConfigureContexts | bsps/riscv/riscv/irq/irq.c:203-271 | the context loop, the priority loop and setting `mie.MEIP`, with the whole resulting state |
| RiscvInit.PlicInit | bsps/riscv/riscv/irq/irq.c:168-272 | missing PLIC: early return with HTIF, else fatal; absent or not 4-byte `riscv,ndev`: fatal; ndev above the maximum: fatal; all before any write; otherwise the full configured state |
| RiscvInit.FacilityInitialize | bsps/riscv/riscv/irq/irq.c:274-281 | CLINT then PLIC initialisation, stopping at the first fatal error: the CLINT pointers even when the PLIC part fails; on success the combined pointers, table, priorities, zeroed thresholds of attached contexts, cleared enable words and `mie.MEIP`, all other words unchanged |
| RiscvInit.InitialAffinity | bsps/riscv/riscv/irq/irq.c:260-265 | after initialisation get-affinity reports processor 0 (added to the caller's set) or, when processor 0 has no context, the online set: the table is exclusive to processor 0 |
| RiscvInit.AttachedBlocksDistinct | bsps/riscv/riscv/irq/irq.c:231-235 | from the boot state, distinct processors end with distinct enable blocks |
| RiscvInit.AttachedBlocksOnly | bsps/riscv/riscv/irq/irq.c:231-235 | from the boot state, every enable block a processor ends with is that of a kept context |
| RiscvInit.InitialSourcesDisabled | bsps/riscv/riscv/irq/irq.c:237-239 | a source whose word lies in the cleared words starts disabled on every processor |
| Uc5282Clock.U32 | c/src/lib/libbsp/m68k/uC5282/clock/clock.c:86-90 | a `uint32_t` conversion is the representative in 0 .. 2^32-1 of the same residue |
| Uc5282Clock.SignExtend | c/src/lib/libbsp/m68k/uC5282/clock/clock.c:47-57 | the conversion the driver avoids: readings of 0x8000 and above become `v + 2^32 - 2^16` |
| Uc5282Clock.CDiv | c/src/lib/libbsp/m68k/uC5282/clock/clock.c:177 | C division agrees with mathematical division for a non-negative dividend and positive divisor |
| Uc5282Clock.TickDifference | c/src/lib/libbsp/m68k/uC5282/clock/clock.c:80-91 | without PIF it is latched minus current modulo 2^32; with PIF it is PMR plus latched minus the re-read counter modulo 2^32, all zero-extended |
| Uc5282Clock.NanosecondsSinceLastTick | c/src/lib/libbsp/m68k/uC5282/clock/clock.c:36-94 | the result is 1000 times the tick difference modulo 2^32 |
| Uc5282Clock.NoRolloverExact | c/src/lib/libbsp/m68k/uC5282/clock/clock.c:89-93 | without rollover it is exactly 1000 times the elapsed count |
| Uc5282Clock.RolloverExact | c/src/lib/libbsp/m68k/uC5282/clock/clock.c:82-93 | after a rollover it is exactly 1000 times `PMR + latched - current` |
| Uc5282Clock.NegativeDifferenceWraps | c/src/lib/libbsp/m68k/uC5282/clock/clock.c:60-64 | a counter above the latched value without PIF gives `2^32 - 1000 d`: the difference wraps |
| Uc5282Clock.ZeroExtensionMatters | c/src/lib/libbsp/m68k/uC5282/clock/clock.c:47-57 | for readings b <= a the zero-extended difference is exactly a - b; for a >= 0x8000 > b the sign-extended one is off by 2^32 - 2^16 |
| Uc5282Clock.PrescaleCode | c/src/lib/libbsp/m68k/uC5282/clock/clock.c:137-142 | the loop yields the bit length of the clock in MHz, minus 2 |
| Uc5282Clock.PrescaleCodeForPowerOfTwo | c/src/lib/libbsp/m68k/uC5282/clock/clock.c:131-142 | a 2^n MHz clock, 1 <= n <= 16, gives code n-1, a 4-bit field |
| Uc5282Clock.LoadPercentage | c/src/lib/libbsp/m68k/uC5282/clock/clock.c:174-179 | 0 when no idle maximum is known; 100 when less than one tick of idle time is filtered |
| Uc5282Clock.LoadDecreasesWithIdle | c/src/lib/libbsp/m68k/uC5282/clock/clock.c:174-179 | more filtered idle time never gives a higher load |
| Uc5282Clock.LoadIsPercentage | c/src/lib/libbsp/m68k/uC5282/clock/clock.c:174-179 | with the filter within 64 times the maximum the load is within 0 .. 100, and 0 when the filter is at its top |
| Uc5282Clock.DecayBound | c/src/lib/libbsp/m68k/uC5282/clock/clock.c:108 | `F - (F >> 6)` keeps a filter value bounded by 64 M within 63 M |
| Uc5282Clock.ClockDriver.AtTick | c/src/lib/libbsp/m68k/uC5282/clock/clock.c:102-110 | the idle counter becomes 0; the maximum becomes max(old, idle) and never decreases; the filter becomes `idle + F - (F >> 6)`; PIF is acknowledged; the counter invariant is kept |
| Uc5282Clock.ClockDriver.ShutdownHardware | c/src/lib/libbsp/m68k/uC5282/clock/clock.c:123-126 | the timer enable bit is cleared, and the read-modify-write clears a pending PIF |
| Uc5282Clock.ClockDriver.InitializeHardware | c/src/lib/libbsp/m68k/uC5282/clock/clock.c:134-163 | counters cleared, prescale code from the loop, the modulus register `USEC_PER_TICK - 1` in 16 bits, the timer running with reload and interrupt enabled, and PIF clear (the `&= ~EN` write-back clears it) |
| Uc5282Clock.ModulusGivesTickLength | c/src/lib/libbsp/m68k/uC5282/clock/clock.c:157-158 | for ticks of 1 .. 65536 microseconds the modulus makes the down-count period exactly `USEC_PER_TICK` values, starting at `USEC_PER_TICK - 1` |
| Uc5282Clock.DownCount | c/src/lib/libbsp/m68k/uC5282/clock/clock.c:155-162 | in reload mode PIT3 counts from PMR down by one to 0 each period, PMR + 1 values |

## Left out

- The `riscv_plic_lock` and the cross-processor reads without a lock: each operation is one atomic step.
- The `fence o, i` after each completion is memory ordering, which the model does not express; the claim reads are the input sequence and the trace records each completion write after its dispatch.
- libfdt (`fdt_node_offset_by_compatible`, `fdt_getprop`, `riscv_fdt_get_address`) and `riscv_get_hart_index_by_phandle` are foreign code: the device tree is a pre-decoded input.
- The assignment of the `riscv_clint` and `riscv_plic` globals: the register arrays of the controller stand for them.
- `bsp_interrupt_handler_dispatch`, `_SMP_Inter_processor_interrupt_handler` and `bsp_fatal` are external: they are trace events or an outcome.
- The vector macros and `BSP_INTERRUPT_VECTOR_COUNT` come from a header that is not part of this model; the usual RISC-V layout is used.
- `clint_mtimecmp` is set up like `clint_msip` but only the clock driver, which is not part of this model, uses it.
- `mie` and `mip` are the CSRs of the executing hart only: `ConfigureContexts`, `VectorEnable` and `VectorDisable` change that one register, and the CSRs of other processors (set up by `bsp_start_on_secondary_processor`) are not part of this model.
- The priority-threshold and claim/complete registers of a context are modelled only as far as initialisation and the dispatcher touch them.
- RiscvDispatch.DrainClaims: requires the claim register to yield 0 eventually; a PLIC that keeps claiming would make the loop run forever.
- RiscvDispatch.InterruptDispatch: requires the executing processor to have the `plic_hart_regs` or `clint_msip` pointer its branch dereferences; the code does not check for NULL.
- RiscvIrq.InterruptController.IsEnabled: on a uniprocessor requires processor 0 to have a PLIC context, since the code dereferences its `plic_m_ie` without a NULL check.
- RiscvIrq.InterruptController.RiscvRaiseOn: requires the target processor to have a `clint_msip` pointer, which the code dereferences without a check.
- RiscvInit.PlicInit: requires the enable region to reach 256 words past the end of the last listed context's block, because `mie_regs` words are cleared from a block's start; the hardware's enable region (15872 contexts) gives this room for any real device tree.
- RiscvInit.ClintInit: requires the CLINT `msip` array to hold every entry the device-tree property lists, so that each pointer names a register of the model.
- RiscvInit.PlicInit: requires the boot state of the table (all NULL), which is what the zero-initialised static storage holds when `bsp_interrupt_facility_initialize` runs.
- In clock.c: the interrupt-controller setup (`bsp_allocate_interrupt`, ICR/IMR writes, `set_vector`), the inline-assembly idle loop and the included `clockdrv_shell.h` are hardware plumbing and are left out.
- Uc5282Clock.ClockDriver.AtTick: requires that `idle + F`, which C computes before subtracting `F >> 6`, does not overflow an `int`, as C's signed overflow is undefined.
- Uc5282Clock.LoadPercentage: requires a non-negative filter and no overflow in `100 * (F >> 6)`; the driver's counters keep the filter non-negative. It does not exclude the overflow of the final `100 - q` for a negative maximum, which the driver never produces (`MAX_IDLE_COUNT` only grows from 0).
- Uc5282Clock.PrescaleCode: requires a non-negative clock frequency; `MCF5282_PIT_PCSR_PRE` comes from a header that is not part of this model, so the field is stored unmasked.
