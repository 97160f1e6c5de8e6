/**
 * _RISCV_Interrupt_dispatch: the machine-mode interrupt trap handler.
 *
 * The handler classifies mcause, then either dispatches the timer vector,
 * drains the PLIC claim/complete register of the executing hart, clears the
 * software interrupt and runs the inter-processor interrupt handler, or
 * stops the system.  What the handler does to the outside world is recorded
 * as a trace of events; the values the claim register yields one after
 * another are an input.
 */
module RiscvDispatch {
  import opened BitArith
  import opened RiscvVectors
  import opened RiscvIrq

  /** What the dispatcher does, in order. */
  datatype Event =
    | Dispatched(vector: nat)     // bsp_interrupt_handler_dispatch(vector)
    | Completed(index: nat)       // plic_hart_regs->claim_complete = index
    | MsipCleared(cpu: nat)       // *cpu_self->cpu_per_cpu.clint_msip = 0
    | InterProcessorInterrupt     // _SMP_Inter_processor_interrupt_handler(cpu_self)
    | Fatal(code: FatalCode)      // bsp_fatal(code), which does not return

  /** The classes of mcause the dispatcher tells apart. */
  datatype Cause = MachineTimer | MachineExternal | MachineSoftware | Unexpected

  /** The cause named by an exception code (mcause without its interrupt bit). */
  function CauseOfCode(code: nat): Cause
  {
    if code == CauseMachineTimer then MachineTimer
    else if code == CauseMachineExternal then MachineExternal
    else if code == CauseMachineSoftware then MachineSoftware
    else Unexpected
  }

  /** `mcause <<= 1` on an xlen-bit uintptr_t: the interrupt bit is shifted out. */
  function ShiftOutTop(mcause: nat, xlen: nat): nat
  {
    (mcause * 2) % Pow2(xlen)
  }

  /** The branch the dispatcher takes: the shifted mcause against each code shifted by one. */
  function Classify(mcause: nat, xlen: nat): Cause
  {
    var shifted := ShiftOutTop(mcause, xlen);
    if shifted == CauseMachineTimer * 2 then MachineTimer
    else if shifted == CauseMachineExternal * 2 then MachineExternal
    else if shifted == CauseMachineSoftware * 2 then MachineSoftware
    else Unexpected
  }

  /**
   * Shifting left by one and comparing with the doubled codes classifies
   * mcause exactly by its exception code, the low xlen - 1 bits.
   */
  lemma ClassifyByExceptionCode(mcause: nat, xlen: nat)
    requires xlen >= 5
    ensures Classify(mcause, xlen) == CauseOfCode(mcause % Pow2(xlen - 1))
  {
    var h := Pow2(xlen - 1);
    assert Pow2(xlen) == 2 * h;
    ModDouble(mcause, h);
    assert ShiftOutTop(mcause, xlen) == 2 * (mcause % h);
  }

  /** The interrupt bit (the most significant bit of mcause) does not affect the branch taken. */
  lemma InterruptBitIgnored(code: nat, xlen: nat)
    requires xlen >= 5 && code < Pow2(xlen - 1)
    ensures Classify(code + Pow2(xlen - 1), xlen) == Classify(code, xlen) == CauseOfCode(code)
  {
    var h := Pow2(xlen - 1);
    ClassifyByExceptionCode(code, xlen);
    ClassifyByExceptionCode(code + h, xlen);
    ModUnique(code + h, h, 1, code);
    ModUnique(code, h, 0, code);
  }

  /**
   * The external-interrupt loop: read the claim register, and while it
   * yields a source other than 0, dispatch that source's vector and write
   * the source back to complete it.  `claims` are the successive values
   * the claim register yields; the loop stops at the first 0.
   */
  method DrainClaims(claims: seq<nat>) returns (trace: seq<Event>, consumed: nat)
    requires 0 in claims
    ensures 1 <= consumed <= |claims| && claims[consumed - 1] == 0
    ensures forall k | 0 <= k < consumed - 1 :: claims[k] != 0
    ensures |trace| == 2 * (consumed - 1)
    ensures forall k | 0 <= k < consumed - 1 ::
              trace[2 * k] == Dispatched(External(claims[k])) && trace[2 * k + 1] == Completed(claims[k])
  {
    trace := [];
    consumed := 0;
    var index := claims[consumed];
    consumed := consumed + 1;
    while index != 0
      invariant 1 <= consumed <= |claims| && index == claims[consumed - 1]
      invariant 0 in claims[consumed - 1..]
      invariant forall k | 0 <= k < consumed - 1 :: claims[k] != 0
      invariant |trace| == 2 * (consumed - 1)
      invariant forall k | 0 <= k < consumed - 1 ::
                  trace[2 * k] == Dispatched(External(claims[k])) && trace[2 * k + 1] == Completed(claims[k])
      decreases |claims| - consumed
    {
      trace := trace + [Dispatched(External(index)), Completed(index)];
      assert claims[consumed - 1..] == [index] + claims[consumed..];
      index := claims[consumed];
      consumed := consumed + 1;
    }
  }

  /** Every source the loop dispatches is completed, right after its handler and in claim order. */
  lemma {:induction false} ClaimsCompletedInOrder(trace: seq<Event>, claims: seq<nat>, n: nat)
    requires n <= |claims| && |trace| == 2 * n
    requires forall k | 0 <= k < n ::
               trace[2 * k] == Dispatched(External(claims[k])) && trace[2 * k + 1] == Completed(claims[k])
    ensures Completions(trace) == claims[..n]
  {
    if n > 0 {
      var last := trace[..2 * (n - 1)];
      forall k | 0 <= k < n - 1
        ensures last[2 * k] == Dispatched(External(claims[k])) && last[2 * k + 1] == Completed(claims[k])
      {
      }
      ClaimsCompletedInOrder(last, claims, n - 1);
      var pair := [trace[2 * n - 2], trace[2 * n - 1]];
      assert trace == last + pair;
      CompletionsAppend(last, pair);
      assert pair[..1] == [Dispatched(External(claims[n - 1]))];
      assert Completions(pair[..1]) == Completions([]);
      assert Completions(pair) == [claims[n - 1]];
      assert claims[..n] == claims[..n - 1] + [claims[n - 1]];
    }
  }

  /** The position of the first 0 the claim register yields. */
  function FirstZero(claims: seq<nat>): (n: nat)
    requires 0 in claims
    ensures n < |claims| && claims[n] == 0 && forall k | 0 <= k < n :: claims[k] != 0
  {
    if claims[0] == 0 then 0 else FirstZero(claims[1..]) + 1
  }

  /** The loop's trace holds only handler dispatches and completions. */
  lemma ClaimEventsOnly(trace: seq<Event>, claims: seq<nat>, n: nat)
    requires n <= |claims| && |trace| == 2 * n
    requires forall k | 0 <= k < n ::
               trace[2 * k] == Dispatched(External(claims[k])) && trace[2 * k + 1] == Completed(claims[k])
    ensures forall i | 0 <= i < |trace| :: trace[i].Dispatched? || trace[i].Completed?
  {
    forall i | 0 <= i < |trace|
      ensures trace[i].Dispatched? || trace[i].Completed?
    {
      var k := i / 2;
      assert i == 2 * k + i % 2 && k < n;
      assert trace[2 * k] == Dispatched(External(claims[k])) && trace[2 * k + 1] == Completed(claims[k]);
    }
  }

  /** The sources completed in a trace, in order. */
  function Completions(trace: seq<Event>): seq<nat>
  {
    if |trace| == 0 then []
    else Completions(trace[..|trace| - 1]) + (if trace[|trace| - 1].Completed? then [trace[|trace| - 1].index] else [])
  }

  lemma {:induction false} CompletionsAppend(a: seq<Event>, b: seq<Event>)
    ensures Completions(a + b) == Completions(a) + Completions(b)
  {
    if |b| > 0 {
      var b' := b[..|b| - 1];
      assert (a + b)[..|a + b| - 1] == a + b';
      CompletionsAppend(a, b');
    } else {
      assert a + b == a;
    }
  }

  /**
   * _RISCV_Interrupt_dispatch on the executing processor `self`.  The
   * external branch dereferences the processor's `plic_hart_regs`, and the
   * SMP software branch its `clint_msip`; both are set up by the
   * initialisation for every processor that takes such interrupts.
   */
  method InterruptDispatch(c: InterruptController, mcause: nat, self: nat, claims: seq<nat>)
    returns (trace: seq<Event>)
    requires c.Valid() && self < |c.cpus|
    requires Classify(mcause, c.cfg.xlen) == MachineExternal ==> c.cpus[self].plicHartRegs.Some? && 0 in claims
    requires Classify(mcause, c.cfg.xlen) == MachineSoftware && c.cfg.smp ==> c.cpus[self].clintMsip.Some?
    modifies c.clintMsip
    ensures Classify(mcause, c.cfg.xlen) == MachineTimer ==>
              trace == [Dispatched(VectorTimer)] && unchanged(c.clintMsip)
    ensures Classify(mcause, c.cfg.xlen) == MachineExternal ==>
              && |trace| == 2 * FirstZero(claims)
              && (forall k | 0 <= k < FirstZero(claims) ::
                    trace[2 * k] == Dispatched(External(claims[k])) && trace[2 * k + 1] == Completed(claims[k]))
              && Completions(trace) == claims[..FirstZero(claims)]
              && (forall i | 0 <= i < |trace| :: trace[i].Dispatched? || trace[i].Completed?)
              && unchanged(c.clintMsip)
    ensures Classify(mcause, c.cfg.xlen) == MachineSoftware && c.cfg.smp ==>
              && trace == [MsipCleared(self), InterProcessorInterrupt]
              && c.clintMsip[..] == old(c.clintMsip[..])[c.cpus[self].clintMsip.value := 0]
    ensures Classify(mcause, c.cfg.xlen) == MachineSoftware && !c.cfg.smp ==>
              trace == [Dispatched(VectorSoftware)] && unchanged(c.clintMsip)
    ensures Classify(mcause, c.cfg.xlen) == Unexpected ==>
              trace == [Fatal(UnexpectedInterruptException)] && unchanged(c.clintMsip)
  {
    var cause := Classify(mcause, c.cfg.xlen);
    if cause == MachineTimer {
      trace := [Dispatched(VectorTimer)];
    } else if cause == MachineExternal {
      var consumed;
      trace, consumed := DrainClaims(claims);
      ClaimsCompletedInOrder(trace, claims, consumed - 1);
      ClaimEventsOnly(trace, claims, consumed - 1);
      assert consumed - 1 == FirstZero(claims);
    } else if cause == MachineSoftware {
      if c.cfg.smp {
        c.clintMsip[c.cpus[self].clintMsip.value] := 0;
        trace := [MsipCleared(self), InterProcessorInterrupt];
      } else {
        trace := [Dispatched(VectorSoftware)];
      }
    } else {
      trace := [Fatal(UnexpectedInterruptException)];
    }
  }
}
