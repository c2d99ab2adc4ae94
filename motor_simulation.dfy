// The basic motor script: an open-loop test at full PWM from rest, then a
// feed-forward run at the desired speed that continues on the same motor.
module MotorSimulation {
  import opened Plant
  import opened Sensor
  import opened Phases

  /** The script's desired speed in RPM. */
  const DESIRED_SPEED: real := 120.0

  /** Both phases on one motor: `openSteps` ticks at full PWM with the tick
      encoder, then `ffSteps` ticks commanding `desired`. */
  method Run(openSteps: nat, ffSteps: nat, desired: real)
    returns (open: seq<OpenSample>, ff: seq<FeedSample>)
    ensures |open| == openSteps && |ff| == ffSteps
    ensures OpenLoopTrace(0.0, 0, open) && FeedTrace(OpenEnd(open), desired, ff)
    ensures forall k :: 0 <= k < |open| ==> 0.0 <= open[k].speed < OPEN_LOOP_PWM
    ensures forall k :: 0 < k < |open| ==> open[k - 1].speed < open[k].speed
    ensures forall j, k :: 0 <= j <= k < |open| ==> open[j].ticks <= open[k].ticks
    ensures 0 < |open| ==> open[0].ticks == TicksFor(open[0].speed)
    ensures forall k :: 0 < k < |open| ==> open[k].ticks == open[k - 1].ticks + TicksFor(open[k].speed)
    // the feed-forward phase continues from where the open loop left the motor
    ensures 0 < |ff| ==> ff[0].speed == Lag(OpenEnd(open), desired)
    ensures forall k :: 0 < k < |ff| ==> ff[k].speed == Lag(ff[k - 1].speed, desired)
    ensures forall k :: 0 <= k < |ff| ==> ff[k].error == desired - ff[k].speed
    ensures forall k :: 0 < k < |ff| ==> ff[k].error == 0.9 * ff[k - 1].error
    ensures OPEN_LOOP_PWM <= desired ==> forall k :: 0 <= k < |ff| ==> 0.0 < ff[k].error
  {
    var motor := new Motor();
    var encoder := new TickEncoder();
    open := OpenLoop(motor, encoder, openSteps);
    OpenLoopFromRest(open);
    OpenTicksAccumulate(0.0, 0, open);
    var speed0 := motor.speed;
    OpenEndSpeed(open, speed0);
    ff := FeedForward(motor, desired, ffSteps);
    FeedSteps(speed0, desired, ff);
    FeedErrorDecay(speed0, desired, ff);
  }

  /** With the script's own constants the feed-forward error is positive on
      every tick and shrinks by the factor 0.9. */
  lemma ScriptErrorsPositive(open: seq<OpenSample>, ff: seq<FeedSample>)
    requires OpenLoopTrace(0.0, 0, open) && FeedTrace(OpenEnd(open), DESIRED_SPEED, ff)
    ensures forall k :: 0 <= k < |ff| ==> 0.0 < ff[k].error < DESIRED_SPEED
  {
    assert 0.0 <= OpenEnd(open) < OPEN_LOOP_PWM by {
      OpenLoopFromRest(open);
    }
    FeedErrorDecay(OpenEnd(open), DESIRED_SPEED, ff);
    forall k | 0 <= k < |ff|
      ensures ff[k].error < DESIRED_SPEED
    {
      LagNRises(OpenEnd(open), DESIRED_SPEED, k);
    }
  }
}
