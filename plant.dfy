// The simulated DC motor: a first-order lag that moves its speed one tenth of
// the way toward the commanded PWM on every call, independent of any loop dt.
module Plant {

  /** The speed after one tick of the lag, from `speed` under command `pwm`. */
  function Lag(speed: real, pwm: real): real
  {
    speed + 0.1 * (pwm - speed)
  }

  /** The speed after `n` ticks under the constant command `pwm`. */
  function LagN(speed: real, pwm: real, n: nat): real
  {
    if n == 0 then speed else Lag(LagN(speed, pwm, n - 1), pwm)
  }

  function Pow(x: real, n: nat): real
  {
    if n == 0 then 1.0 else x * Pow(x, n - 1)
  }

  /** One tick is the convex combination 0.9*speed + 0.1*pwm; the new speed lies
      between the old speed and the command, strictly when they differ. */
  lemma LagBetween(speed: real, pwm: real)
    ensures Lag(speed, pwm) == 0.9 * speed + 0.1 * pwm
    ensures speed <= pwm ==> speed <= Lag(speed, pwm) <= pwm
    ensures pwm <= speed ==> pwm <= Lag(speed, pwm) <= speed
    ensures speed < pwm ==> speed < Lag(speed, pwm) < pwm
    ensures pwm < speed ==> pwm < Lag(speed, pwm) < speed
  {
  }

  /** The tracking error `pwm - speed` shrinks by the factor 0.9 each tick. */
  lemma LagErrorShrinks(speed: real, pwm: real)
    ensures pwm - Lag(speed, pwm) == 0.9 * (pwm - speed)
  {
  }

  /** After `n` ticks the error is 0.9^n times the initial error. */
  lemma {:induction false} LagNError(speed: real, pwm: real, n: nat)
    ensures pwm - LagN(speed, pwm, n) == Pow(0.9, n) * (pwm - speed)
  {
    if n > 0 {
      LagNError(speed, pwm, n - 1);
      var e := pwm - LagN(speed, pwm, n - 1);
      calc {
        pwm - LagN(speed, pwm, n);
        0.9 * e;
        0.9 * (Pow(0.9, n - 1) * (pwm - speed));
        (0.9 * Pow(0.9, n - 1)) * (pwm - speed);
      }
    }
  }

  /** Starting below a constant command, the speed rises strictly at every tick and
      never reaches the command. */
  lemma {:induction false} LagNRises(speed: real, pwm: real, n: nat)
    requires speed < pwm
    ensures speed <= LagN(speed, pwm, n) < pwm
    ensures LagN(speed, pwm, n) < LagN(speed, pwm, n + 1)
  {
    if n > 0 {
      LagNRises(speed, pwm, n - 1);
    }
    LagBetween(LagN(speed, pwm, n), pwm);
  }

  /** Starting above a constant command, the speed falls strictly and stays above it. */
  lemma {:induction false} LagNFalls(speed: real, pwm: real, n: nat)
    requires pwm < speed
    ensures pwm < LagN(speed, pwm, n) <= speed
    ensures LagN(speed, pwm, n + 1) < LagN(speed, pwm, n)
  {
    if n > 0 {
      LagNFalls(speed, pwm, n - 1);
    }
    LagBetween(LagN(speed, pwm, n), pwm);
  }

  /** A non-negative speed under a non-negative command stays non-negative. */
  lemma {:induction false} LagNNonNegative(speed: real, pwm: real, n: nat)
    requires 0.0 <= speed && 0.0 <= pwm
    ensures 0.0 <= LagN(speed, pwm, n)
  {
    if n > 0 {
      LagNNonNegative(speed, pwm, n - 1);
      LagBetween(LagN(speed, pwm, n - 1), pwm);
    }
  }

  class Motor {
    var speed: real  // RPM

    constructor ()
      ensures speed == 0.0
    {
      speed := 0.0;
    }

    /** Advances the motor one tick under command `pwm` and returns the new speed. */
    method Update(pwm: real) returns (newSpeed: real)
      modifies this
      ensures speed == Lag(old(speed), pwm) && newSpeed == speed
      ensures old(speed) <= pwm ==> old(speed) <= speed <= pwm
      ensures pwm <= old(speed) ==> pwm <= speed <= old(speed)
    {
      speed := speed + 0.1 * (pwm - speed);
      newSpeed := speed;
    }
  }
}
