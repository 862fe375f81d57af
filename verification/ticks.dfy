/**
 * The FreeRTOS tick type is a 32-bit unsigned integer; all tick arithmetic
 * wraps modulo 2^32.
 */
module Ticks {

  const TICK_MODULUS: int := 0x1_0000_0000

  type Tick = x: int | 0 <= x < TICK_MODULUS

  /** `portMAX_DELAY`: the largest tick value, used as "wait forever". */
  const MAX_DELAY: Tick := 0xffff_ffff

  /** Wrapping addition of two tick values. */
  function AddTick(a: Tick, b: Tick): (r: Tick)
    ensures a + b < TICK_MODULUS ==> r == a + b
    ensures a + b >= TICK_MODULUS ==> r == a + b - TICK_MODULUS && r < a
  {
    (a + b) % TICK_MODULUS
  }

  /** Wrapping subtraction of two tick values. */
  function SubTick(a: Tick, b: Tick): (r: Tick)
    ensures b <= a ==> r == a - b
    ensures a < b ==> r == a - b + TICK_MODULUS
  {
    (a - b) % TICK_MODULUS
  }

  /** The tick count `n` ticks after `t`, modulo 2^32. */
  function TicksLater(t: Tick, n: nat): (r: Tick)
    ensures n < TICK_MODULUS ==> r == AddTick(t, n)
  {
    (t + n) % TICK_MODULUS
  }
}
