// The two fixed-command phases the Week 2 scripts share: the open-loop test that
// drives the motor at full PWM while the tick encoder counts, and the
// feed-forward run that commands the desired speed itself as PWM.
module Phases {
  import opened Plant
  import opened Sensor

  /** The open-loop test's fixed command. */
  const OPEN_LOOP_PWM: real := 100.0

  /** What one open-loop tick reports: the new speed and the encoder total. */
  datatype OpenSample = OpenSample(speed: real, ticks: int)

  /** What one feed-forward tick reports: the new speed and `desired - speed`. */
  datatype FeedSample = FeedSample(speed: real, error: real)

  /** Ticks counted over the first `n` open-loop ticks from `speed0`; the encoder
      reads the speed each tick leaves. */
  function OpenTicks(speed0: real, n: nat): int
  {
    if n == 0 then 0 else OpenTicks(speed0, n - 1) + TicksFor(LagN(speed0, OPEN_LOOP_PWM, n))
  }

  /** `samples` is what the open loop reports from motor speed `speed0` and
      encoder total `ticks0`. */
  ghost predicate OpenLoopTrace(speed0: real, ticks0: int, samples: seq<OpenSample>)
  {
    forall k :: 0 <= k < |samples| ==>
      samples[k].speed == LagN(speed0, OPEN_LOOP_PWM, k + 1) &&
      samples[k].ticks == ticks0 + OpenTicks(speed0, k + 1)
  }

  /** `samples` is what the feed-forward loop reports from motor speed `speed0`. */
  ghost predicate FeedTrace(speed0: real, desired: real, samples: seq<FeedSample>)
  {
    forall k :: 0 <= k < |samples| ==>
      samples[k].speed == LagN(speed0, desired, k + 1) &&
      samples[k].error == desired - samples[k].speed
  }

  /** Speed the open loop leaves behind (the motor starts at rest). */
  function OpenEnd(open: seq<OpenSample>): real
  {
    if open == [] then 0.0 else open[|open| - 1].speed
  }

  /** `for _ in range(steps)`: command full PWM, then count ticks at the new speed. */
  method OpenLoop(motor: Motor, encoder: TickEncoder, steps: nat) returns (samples: seq<OpenSample>)
    modifies motor, encoder
    ensures |samples| == steps && OpenLoopTrace(old(motor.speed), old(encoder.ticks), samples)
    ensures motor.speed == LagN(old(motor.speed), OPEN_LOOP_PWM, steps)
    ensures encoder.ticks == old(encoder.ticks) + OpenTicks(old(motor.speed), steps)
  {
    samples := [];
    while |samples| < steps
      invariant |samples| <= steps
      invariant OpenLoopTrace(old(motor.speed), old(encoder.ticks), samples)
      invariant motor.speed == LagN(old(motor.speed), OPEN_LOOP_PWM, |samples|)
      invariant encoder.ticks == old(encoder.ticks) + OpenTicks(old(motor.speed), |samples|)
    {
      var speed := motor.Update(OPEN_LOOP_PWM);
      var ticks := encoder.Update(speed);
      samples := samples + [OpenSample(speed, ticks)];
    }
  }

  /** `for _ in range(steps)`: command `desired` as PWM and report the error. */
  method FeedForward(motor: Motor, desired: real, steps: nat) returns (samples: seq<FeedSample>)
    modifies motor
    ensures |samples| == steps && FeedTrace(old(motor.speed), desired, samples)
    ensures motor.speed == LagN(old(motor.speed), desired, steps)
  {
    samples := [];
    while |samples| < steps
      invariant |samples| <= steps
      invariant FeedTrace(old(motor.speed), desired, samples)
      invariant motor.speed == LagN(old(motor.speed), desired, |samples|)
    {
      var speed := motor.Update(desired);
      var error := desired - speed;
      samples := samples + [FeedSample(speed, error)];
    }
  }

  /** Each open-loop tick adds `int(speed * 0.5)` of its own new speed to the
      encoder total, which it reports. */
  lemma OpenTicksAccumulate(speed0: real, ticks0: int, samples: seq<OpenSample>)
    requires OpenLoopTrace(speed0, ticks0, samples)
    ensures 0 < |samples| ==> samples[0].ticks == ticks0 + TicksFor(samples[0].speed)
    ensures forall k :: 0 < k < |samples| ==>
              samples[k].ticks == samples[k - 1].ticks + TicksFor(samples[k].speed)
  {
    assert OpenTicks(speed0, 0) == 0;
  }

  /** Each feed-forward tick lags the previous speed toward `desired`, starting
      from `speed0`. */
  lemma FeedSteps(speed0: real, desired: real, samples: seq<FeedSample>)
    requires FeedTrace(speed0, desired, samples)
    ensures 0 < |samples| ==> samples[0].speed == Lag(speed0, desired)
    ensures forall k :: 0 < k < |samples| ==> samples[k].speed == Lag(samples[k - 1].speed, desired)
  {
    assert LagN(speed0, desired, 0) == speed0;
  }

  /** From a non-negative speed, the open-loop tick total never decreases. */
  lemma {:induction false} OpenTicksMonotone(speed0: real, i: nat, j: nat)
    requires 0.0 <= speed0 && i <= j
    ensures OpenTicks(speed0, i) <= OpenTicks(speed0, j)
  {
    if i < j {
      OpenTicksMonotone(speed0, i, j - 1);
      LagNNonNegative(speed0, OPEN_LOOP_PWM, j);
      TicksForNonNegative(LagN(speed0, OPEN_LOOP_PWM, j));
    }
  }

  /** The open-loop test from rest: the speed stays in `[0, 100)` and rises
      strictly every tick, and the tick total never decreases. */
  lemma OpenLoopFromRest(samples: seq<OpenSample>)
    requires OpenLoopTrace(0.0, 0, samples)
    ensures forall k :: 0 <= k < |samples| ==> 0.0 <= samples[k].speed < OPEN_LOOP_PWM
    ensures forall k :: 0 < k < |samples| ==> samples[k - 1].speed < samples[k].speed
    ensures forall j, k :: 0 <= j <= k < |samples| ==> samples[j].ticks <= samples[k].ticks
  {
    forall k | 0 <= k < |samples|
      ensures 0.0 <= samples[k].speed < OPEN_LOOP_PWM
    {
      LagNRises(0.0, OPEN_LOOP_PWM, k + 1);
    }
    forall k | 0 < k < |samples|
      ensures samples[k - 1].speed < samples[k].speed
    {
      LagNRises(0.0, OPEN_LOOP_PWM, k);
    }
    forall j, k | 0 <= j <= k < |samples|
      ensures samples[j].ticks <= samples[k].ticks
    {
      OpenTicksMonotone(0.0, j + 1, k + 1);
    }
  }

  /** In the feed-forward loop the error after tick `k` is `0.9^(k+1)` times the
      starting error, so each tick scales it by 0.9; from below the command it
      stays positive. */
  lemma FeedErrorDecay(speed0: real, desired: real, samples: seq<FeedSample>)
    requires FeedTrace(speed0, desired, samples)
    ensures forall k :: 0 <= k < |samples| ==> samples[k].error == Pow(0.9, k + 1) * (desired - speed0)
    ensures forall k :: 0 < k < |samples| ==> samples[k].error == 0.9 * samples[k - 1].error
    ensures speed0 < desired ==> forall k :: 0 <= k < |samples| ==> 0.0 < samples[k].error
  {
    forall k | 0 <= k < |samples|
      ensures samples[k].error == Pow(0.9, k + 1) * (desired - speed0)
    {
      LagNError(speed0, desired, k + 1);
    }
    forall k | 0 < k < |samples|
      ensures samples[k].error == 0.9 * samples[k - 1].error
    {
      LagErrorShrinks(LagN(speed0, desired, k), desired);
    }
    if speed0 < desired {
      forall k | 0 <= k < |samples|
        ensures 0.0 < samples[k].error
      {
        LagNRises(speed0, desired, k + 1);
      }
    }
  }

  /** The speed the open loop leaves from rest is the last speed it reported,
      and it lies in `[0, 100)`. */
  lemma OpenEndSpeed(open: seq<OpenSample>, speed: real)
    requires OpenLoopTrace(0.0, 0, open) && speed == LagN(0.0, OPEN_LOOP_PWM, |open|)
    ensures speed == OpenEnd(open) && 0.0 <= speed < OPEN_LOOP_PWM
  {
    LagNRises(0.0, OPEN_LOOP_PWM, |open|);
  }
}
