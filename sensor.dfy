// The two sensors of the scripts: a tick-counting encoder that accumulates the
// integer part of half the speed, and a noisy speed encoder whose Gaussian
// sample is supplied by the caller.
module Sensor {

  /** Python's `int(x)` on a float: truncation toward zero. */
  function TruncToInt(x: real): (i: int)
    ensures 0.0 <= x ==> 0 <= i && i as real <= x < i as real + 1.0
    ensures x < 0.0 ==> i <= 0 && i as real - 1.0 < x <= i as real
  {
    if x >= 0.0 then x.Floor else -((-x).Floor)
  }

  /** Ticks added to the counter for one reading of `speed`. */
  function TicksFor(speed: real): int
  {
    TruncToInt(speed * 0.5)
  }

  /** A non-negative speed never takes ticks away. */
  lemma TicksForNonNegative(speed: real)
    requires 0.0 <= speed
    ensures 0 <= TicksFor(speed)
    ensures TicksFor(speed) as real <= speed * 0.5 < TicksFor(speed) as real + 1.0
  {
  }

  /** The noisy encoder's reading of `trueSpeed` when the Gaussian draw was `noise`. */
  function Read(trueSpeed: real, noise: real): real
  {
    trueSpeed + noise
  }

  class TickEncoder {
    var ticks: int

    constructor ()
      ensures ticks == 0
    {
      ticks := 0;
    }

    /** Accumulates `int(speed * 0.5)` and returns the new total. */
    method Update(speed: real) returns (total: int)
      modifies this
      ensures ticks == old(ticks) + TicksFor(speed) && total == ticks
      ensures 0.0 <= speed ==> old(ticks) <= ticks
    {
      ticks := ticks + TruncToInt(speed * 0.5);
      total := ticks;
    }
  }
}
