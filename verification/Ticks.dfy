/** The kernel's 32-bit tick arithmetic. */

module Ticks {

  /** One more than the largest TickType_t (configUSE_16_BIT_TICKS is 0). */
  const TICK_MODULUS: nat := 0x1_0000_0000

  type TickType = x: int | 0 <= x < 0x1_0000_0000

  const PORT_MAX_DELAY: TickType := 0xFFFF_FFFF

  /** Unsigned 32-bit addition: the sum wraps. */
  function AddTicks(a: int, b: int): TickType {
    (a + b) % TICK_MODULUS
  }

  /** Unsigned 32-bit subtraction: the difference wraps. */
  function SubTicks(a: int, b: int): TickType {
    (a - b) % TICK_MODULUS
  }

  /** A 32-bit sum is the true sum, or the true sum less one wrap when it looks smaller than its operands. */
  lemma AddTicksWraps(a: TickType, b: TickType)
    ensures AddTicks(a, b) == if a + b < TICK_MODULUS then a + b else a + b - TICK_MODULUS
    ensures AddTicks(a, b) < a <==> a + b >= TICK_MODULUS
  {
  }

  lemma SubTicksWraps(a: TickType, b: TickType)
    ensures SubTicks(a, b) == if a >= b then a - b else a - b + TICK_MODULUS
  {
  }

  /** The tick less than one wrap later, from the tick now. */
  lemma WithinOneWrap(t: nat, later: nat)
    requires later < TICK_MODULUS
    ensures var a, b := t % TICK_MODULUS, (t + later) % TICK_MODULUS;
            b == if a + later < TICK_MODULUS then a + later else a + later - TICK_MODULUS
  {
  }
}
