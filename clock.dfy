/**
 * The uC5282 (ColdFire MCF5282) clock driver: the last periodic interval
 * timer (PIT3) ticks the system clock, and the idle task's counter in static
 * RAM gives a CPU-load estimate.
 *
 * Register readings are parameters.  C's `int` is 32 bits: signed overflow is
 * undefined, so operations that could overflow require that they do not;
 * `uint32_t` arithmetic is written out modulo 2^32.  C's `/` truncates toward
 * zero and `>>` of an `int` is an arithmetic (flooring) shift on this target.
 */
module Uc5282Clock {
  import opened BitArith

  const Modulus32: int := 0x1_0000_0000
  const IntMax: int := 0x7fff_ffff
  const FilterDivisor: nat := 64     // 1 << FILTER_SHIFT

  /** A 16-bit register reading. */
  type U16 = x: int | 0 <= x < 0x1_0000

  /** `(uint32_t)` of an integer: reduction modulo 2^32. */
  function U32(x: int): (r: int)
    ensures 0 <= r < Modulus32 && (r - x) % Modulus32 == 0
  {
    x % Modulus32
  }

  /** `(uint32_t)(uint16_t)v`: zero extension keeps the value. */
  function ZeroExtend(v: U16): (r: int)
    ensures r == v as int
  {
    v as int
  }

  /** `(uint32_t)(int16_t)v`: sign extension, the conversion the driver avoids. */
  function SignExtend(v: U16): (r: int)
    ensures v < 0x8000 ==> r == v
    ensures v >= 0x8000 ==> r == v + Modulus32 - 0x1_0000
  {
    if v < 0x8000 then v else U32(v - 0x1_0000)
  }

  /**
   * C's `/` on `int`: the quotient truncated toward zero.
   */
  function CDiv(a: int, b: int): (q: int)
    requires b != 0
    ensures a >= 0 && b > 0 ==> q == a / b
  {
    if a >= 0 then (if b > 0 then a / b else -(a / -b))
    else (if b > 0 then -((-a) / b) else (-a) / (-b))
  }

  /**
   * The timer difference bsp_clock_nanoseconds_since_last_tick computes in
   * `uint32_t`.  The PIT counts down from PMR, so the elapsed count is the
   * count latched at the tick minus the current count; when the interrupt
   * flag PIF is set the counter has rolled over since the tick and is read
   * again (`pcntrAgain`), and PMR is added.
   */
  function TickDifference(pcntr: U16, pif: bool, pmr: U16, atTick: U16, pcntrAgain: U16): (tdiff: int)
    ensures 0 <= tdiff < Modulus32
    ensures !pif ==> (tdiff + ZeroExtend(pcntr) - ZeroExtend(atTick)) % Modulus32 == 0
    ensures pif ==> (tdiff + ZeroExtend(pcntrAgain) - ZeroExtend(pmr) - ZeroExtend(atTick)) % Modulus32 == 0
  {
    var now := ZeroExtend(pcntr);
    if pif then U32(ZeroExtend(pmr) + ZeroExtend(atTick) - ZeroExtend(pcntrAgain))
    else U32(ZeroExtend(atTick) - now)
  }

  /** bsp_clock_nanoseconds_since_last_tick: `tdiff * 1000` in `uint32_t` (one count is one microsecond). */
  function NanosecondsSinceLastTick(pcntr: U16, pif: bool, pmr: U16, atTick: U16, pcntrAgain: U16): (ns: int)
    ensures 0 <= ns < Modulus32
    ensures (ns - 1000 * TickDifference(pcntr, pif, pmr, atTick, pcntrAgain)) % Modulus32 == 0
  {
    U32(TickDifference(pcntr, pif, pmr, atTick, pcntrAgain) * 1000)
  }

  /** Without rollover and with the counter below the latched count, the result is exactly 1000 times the elapsed count. */
  lemma NoRolloverExact(pcntr: U16, pmr: U16, atTick: U16, pcntrAgain: U16)
    requires pcntr <= atTick
    ensures NanosecondsSinceLastTick(pcntr, false, pmr, atTick, pcntrAgain) == 1000 * (atTick - pcntr)
  {
    var d := atTick - pcntr;
    ModUnique(d, Modulus32, 0, d);
    ModUnique(1000 * d, Modulus32, 0, 1000 * d);
  }

  /** After a rollover the result is exactly 1000 times `PMR + latched - current`, which never wraps. */
  lemma RolloverExact(pcntr: U16, pmr: U16, atTick: U16, pcntrAgain: U16)
    requires pcntrAgain <= pmr + atTick
    ensures NanosecondsSinceLastTick(pcntr, true, pmr, atTick, pcntrAgain) == 1000 * (pmr + atTick - pcntrAgain)
  {
    var d := pmr + atTick - pcntrAgain;
    ModUnique(d, Modulus32, 0, d);
    ModUnique(1000 * d, Modulus32, 0, 1000 * d);
  }

  /**
   * Without PIF but with the counter above the latched count (a rollover the
   * flag does not show yet), the difference is negative and the result is its
   * 32-bit two's complement: the clock appears to step back.
   */
  lemma NegativeDifferenceWraps(pcntr: U16, pmr: U16, atTick: U16, pcntrAgain: U16)
    requires pcntr > atTick
    ensures NanosecondsSinceLastTick(pcntr, false, pmr, atTick, pcntrAgain) == Modulus32 - 1000 * (pcntr - atTick)
  {
    var d := pcntr - atTick;
    ModUnique(atTick - pcntr, Modulus32, -1, Modulus32 - d);
    var t := Modulus32 - d;
    assert t * 1000 == 999 * Modulus32 + (Modulus32 - 1000 * d);
    ModUnique(t * 1000, Modulus32, 999, Modulus32 - 1000 * d);
  }

  /**
   * Why the readings are zero-extended: for readings b <= a the zero-extended
   * `uint32_t` difference is exactly a - b, whereas with a at or above 0x8000
   * and b below it, sign extension adds 2^32 - 2^16 (65535 - 1 would give
   * 0xfffffffe instead of 65534).
   */
  lemma ZeroExtensionMatters(a: U16, b: U16)
    ensures b <= a ==> U32(ZeroExtend(a) - ZeroExtend(b)) == a - b
    ensures b < 0x8000 <= a ==> U32(SignExtend(a) - SignExtend(b)) == a - b + Modulus32 - 0x1_0000
  {
    if b <= a {
      ModUnique(a - b, Modulus32, 0, a - b);
    }
    if b < 0x8000 <= a {
      ModUnique(a - b + Modulus32 - 0x1_0000, Modulus32, 0, a - b + Modulus32 - 0x1_0000);
    }
  }

  /**
   * The prescaler loop of Clock_driver_support_initialize_hardware: starting
   * at -2, one more per binary digit of the clock in MHz.
   */
  method PrescaleCode(clockHz: int) returns (code: int)
    requires clockHz >= 0
    ensures code == BitLength(clockHz / 1000000) - 2
  {
    code := -2;
    var divisor := CDiv(clockHz, 1000000);
    while divisor != 0
      invariant divisor >= 0
      invariant code + BitLength(divisor) == BitLength(clockHz / 1000000) - 2
      decreases divisor
    {
      divisor := divisor / 2;    // `>>= 1` of a non-negative int
      code := code + 1;
    }
  }

  /**
   * For a 2^n MHz clock with 1 <= n <= 16 the code is n - 1: a 4-bit PRE
   * field, and the PIT, which counts the internal bus clock (half the system
   * clock) divided by 2^PRE, counts at 1 MHz, one count per microsecond.
   */
  lemma PrescaleCodeForPowerOfTwo(n: nat)
    requires 1 <= n <= 16
    ensures BitLength(Pow2(n) * 1000000 / 1000000) - 2 == n - 1
    ensures 0 <= n - 1 < 16
    ensures Pow2(n) * 1000000 == 2 * Pow2(n - 1) * 1000000
  {
    assert Pow2(n) * 1000000 / 1000000 == Pow2(n);
    BitLengthPow2(n);
  }

  /**
   * rtems_bsp_cpu_load_percentage: 0 before any idle maximum is known,
   * otherwise 100 minus the filtered idle count per tick as a percentage of
   * the maximum.
   */
  function LoadPercentage(maxIdle: int, filtered: int): (r: int)
    requires 0 <= filtered && 100 * (filtered / FilterDivisor) <= IntMax
    ensures maxIdle == 0 ==> r == 0
    ensures maxIdle > 0 && filtered < FilterDivisor ==> r == 100
  {
    var idlePerTick := filtered / FilterDivisor;    // FILTERED_IDLE >> FILTER_SHIFT
    if maxIdle != 0 then 100 - CDiv(100 * idlePerTick, maxIdle) else 0
  }

  /** More idle time never means more load. */
  lemma LoadDecreasesWithIdle(maxIdle: int, f: int, g: int)
    requires maxIdle > 0 && 0 <= f <= g && 100 * (g / FilterDivisor) <= IntMax
    ensures LoadPercentage(maxIdle, g) <= LoadPercentage(maxIdle, f)
  {
    assert f / FilterDivisor <= g / FilterDivisor;
    DivMonotone(100 * (f / FilterDivisor), 100 * (g / FilterDivisor), maxIdle);
  }

  lemma DivMonotone(a: int, b: int, d: int)
    requires 0 <= a <= b && d > 0
    ensures a / d <= b / d
  {
    var qa, ra := a / d, a % d;
    var qb, rb := b / d, b % d;
    assert a == qa * d + ra && b == qb * d + rb;
    if qa > qb {
      MulMonotone(qb + 1, qa, d);
    }
  }

  lemma MulMonotone(x: int, y: int, d: int)
    requires x <= y && d > 0
    ensures x * d <= y * d
  {
    assert y * d - x * d == (y - x) * d;
  }

  /** One step of the idle filter: `F - (F >> 6)` keeps 63/64 of F. */
  function Decay(f: int): int
  {
    f - f / FilterDivisor
  }

  /** A filter value at most 64 M decays to at most 63 M. */
  lemma DecayBound(f: int, m: int)
    requires 0 <= f <= FilterDivisor * m
    ensures 0 <= Decay(f) <= 63 * m
  {
    var q, r := f / FilterDivisor, f % FilterDivisor;
    assert f == FilterDivisor * q + r;
    if q >= m {
      assert r == 0;
    }
  }

  /**
   * The idle counters in static RAM and the PIT3 registers the driver
   * writes.  The idle task increments `idleCounter` (the inline assembly
   * loop is not part of this model).
   */
  class ClockDriver {
    var idleCounter: int     // IDLE_COUNTER
    var filteredIdle: int    // FILTERED_IDLE
    var maxIdleCount: int    // MAX_IDLE_COUNT
    var usecPerTick: int     // USEC_PER_TICK
    var pmr: U16             // MCF5282_PIT3_PMR
    var prescale: int        // PRE field of MCF5282_PIT3_PCSR
    var enabled: bool        // PCSR.EN
    var interruptEnabled: bool  // PCSR.PIE
    var reload: bool         // PCSR.RLD
    var pif: bool            // PCSR.PIF, set by the timer at each underflow

    /**
     * The counters are non-negative 32-bit ints and the filter stays within
     * 64 times the largest idle count seen.
     */
    ghost predicate Valid()
      reads this
    {
      && 0 <= idleCounter <= IntMax
      && 0 <= maxIdleCount <= IntMax
      && 0 <= filteredIdle <= FilterDivisor * maxIdleCount
      && filteredIdle <= IntMax
    }

    constructor ()
      ensures Valid() && idleCounter == 0 && filteredIdle == 0 && maxIdleCount == 0
      ensures !enabled && !pif
    {
      idleCounter, filteredIdle, maxIdleCount, usecPerTick := 0, 0, 0, 0;
      pmr, prescale := 0, 0;
      enabled, interruptEnabled, reload, pif := false, false, false, false;
    }

    /**
     * Clock_driver_support_at_tick: take and reset the idle count, raise the
     * maximum, fold the count into the filter and acknowledge PIF (writing 1
     * clears it).  C adds `idle + FILTERED_IDLE` before subtracting the
     * decay, so that intermediate sum must not overflow an int.
     */
    method AtTick()
      requires Valid()
      requires idleCounter + filteredIdle <= IntMax
      modifies this`idleCounter, this`maxIdleCount, this`filteredIdle, this`pif
      ensures Valid()
      ensures idleCounter == 0
      ensures maxIdleCount == (if old(idleCounter) > old(maxIdleCount) then old(idleCounter) else old(maxIdleCount))
      ensures maxIdleCount >= old(maxIdleCount) && maxIdleCount >= old(idleCounter)
      ensures filteredIdle == old(idleCounter) + old(filteredIdle) - old(filteredIdle) / FilterDivisor
      ensures !pif
    {
      var idle := idleCounter;
      idleCounter := 0;
      if idle > maxIdleCount {
        maxIdleCount := idle;
      }
      DecayBound(filteredIdle, maxIdleCount);
      filteredIdle := idle + filteredIdle - filteredIdle / FilterDivisor;
      pif := false;
    }

    /**
     * Clock_driver_support_shutdown_hardware: clear PCSR.EN.  The `&=` reads
     * PCSR and writes it back, so a set PIF is written as 1, which clears it.
     */
    method ShutdownHardware()
      modifies this`enabled, this`pif
      ensures !enabled && !pif
    {
      enabled, pif := false, false;
    }

    /**
     * Clock_driver_support_initialize_hardware: prescale to microseconds,
     * clear the idle counters, and start PIT3 reloading from
     * `USEC_PER_TICK - 1` with its interrupt enabled.  PIF ends clear: the
     * `&= ~EN` clears a set PIF and the two full writes leave its bit 0.
     */
    method InitializeHardware(clockHz: int, microsecondsPerTick: int)
      requires clockHz >= 0
      modifies this`idleCounter, this`filteredIdle, this`maxIdleCount, this`usecPerTick,
               this`pmr, this`prescale, this`enabled, this`interruptEnabled, this`reload, this`pif
      ensures Valid()
      ensures idleCounter == 0 && filteredIdle == 0 && maxIdleCount == 0
      ensures prescale == BitLength(clockHz / 1000000) - 2
      ensures usecPerTick == microsecondsPerTick
      ensures pmr as int == (microsecondsPerTick - 1) % 0x1_0000
      ensures enabled && interruptEnabled && reload
      ensures !pif
    {
      var code := PrescaleCode(clockHz);
      idleCounter, filteredIdle, maxIdleCount := 0, 0, 0;
      enabled, pif := false, false;    // `&= ~EN` writes a set PIF back as 1, clearing it
      prescale, interruptEnabled, reload := code, true, true;
      usecPerTick := microsecondsPerTick;
      pmr := (usecPerTick - 1) % 0x1_0000;    // a 16-bit register
      enabled := true;
    }
  }

  /**
   * The values PIT3 counts through in one period: in reload mode it counts
   * down from the modulus PMR to 0 and then reloads PMR.
   */
  function DownCount(pmr: U16): (counts: seq<int>)
    ensures |counts| == pmr + 1 && counts[0] == pmr && counts[pmr] == 0
    ensures forall i | 0 < i < |counts| :: counts[i] == counts[i - 1] - 1
  {
    seq(pmr + 1, i requires 0 <= i <= pmr => pmr - i)
  }

  /**
   * With a tick of 1 .. 65536 microseconds the modulus register holds
   * USEC_PER_TICK - 1, so the timer runs through exactly USEC_PER_TICK counts,
   * one per microsecond, from USEC_PER_TICK - 1 down to 0.
   */
  lemma ModulusGivesTickLength(microsecondsPerTick: int)
    requires 1 <= microsecondsPerTick <= 0x1_0000
    ensures var counts := DownCount((microsecondsPerTick - 1) % 0x1_0000);
            |counts| == microsecondsPerTick && counts[0] == microsecondsPerTick - 1
  {
    ModUnique(microsecondsPerTick - 1, 0x1_0000, 0, microsecondsPerTick - 1);
  }

  /**
   * Over a run of ticks whose idle counts stay within the running maximum,
   * the load estimate stays a percentage.
   */
  lemma LoadIsPercentage(maxIdle: int, filtered: int)
    requires 0 < maxIdle && 0 <= filtered <= FilterDivisor * maxIdle && 100 * (filtered / FilterDivisor) <= IntMax
    ensures 0 <= LoadPercentage(maxIdle, filtered) <= 100
    ensures filtered == FilterDivisor * maxIdle ==> LoadPercentage(maxIdle, filtered) == 0
  {
    var q := filtered / FilterDivisor;
    DivMonotone(filtered, FilterDivisor * maxIdle, FilterDivisor);
    MulDivCancel(maxIdle, FilterDivisor);
    assert 0 <= q <= maxIdle;
    MulMonotone(q, maxIdle, 100);
    DivMonotone(100 * q, 100 * maxIdle, maxIdle);
    MulDivCancel(100, maxIdle);
    assert 0 <= (100 * q) / maxIdle <= 100;
  }

  /** Multiplying and then dividing by the same positive number cancels. */
  lemma MulDivCancel(k: int, d: int)
    requires d > 0
    ensures k * d / d == k && d * k / d == k
  {
    ModUnique(k * d, d, k, 0);
  }
}
