// The PID variant of the motor script: the open-loop test and the feed-forward
// run on one motor, then a freshly built motor under an unclamped PID whose
// integral is the plain running sum of the errors and whose derivative is the
// plain difference of successive errors (no `dt` anywhere).
module MotorsimPid {
  import opened Plant
  import opened Sensor
  import opened MovingAverage
  import opened Phases
  import opened Pid

  /** `desired_speed` and the gains. */
  datatype Config = Config(target: real, gains: Gains)

  /** The script's own settings. */
  const SCRIPT: Config := Config(120.0, Gains(0.6, 0.05, 0.1))

  /** One closed-loop tick: the speed and `integral`/`prev_error` it started from,
      the signals it computed, and the state and speed it left. */
  datatype Step = Step(speedBefore: real, before: PidState, error: real, derivative: real,
                       control: real, after: PidState, speedAfter: real)

  function SpeedBefore(trace: seq<Step>, k: nat): real
    requires k <= |trace|
  {
    if k == 0 then 0.0 else trace[k - 1].speedAfter
  }

  function StateBefore(trace: seq<Step>, k: nat): PidState
    requires k <= |trace|
  {
    if k == 0 then PidState(0.0, 0.0) else trace[k - 1].after
  }

  /** One pass of the loop body from `speedBefore` and `before`. */
  ghost predicate StepOk(c: Config, speedBefore: real, before: PidState, st: Step)
  {
    st.speedBefore == speedBefore && st.before == before &&
    st.error == c.target - speedBefore &&
    st.after == PidState(before.integral + st.error, st.error) &&
    st.derivative == st.error - before.prevError &&
    st.control == c.gains.kp * st.error + c.gains.ki * st.after.integral + c.gains.kd * st.derivative &&
    st.speedAfter == Lag(speedBefore, st.control)
  }

  ghost predicate StepAt(c: Config, trace: seq<Step>, k: nat)
    requires k < |trace|
  {
    StepOk(c, SpeedBefore(trace, k), StateBefore(trace, k), trace[k])
  }

  /** Every tick of `trace` continued from the one before it. */
  ghost predicate TraceOk(c: Config, trace: seq<Step>)
  {
    forall k :: 0 <= k < |trace| ==> StepAt(c, trace, k)
  }

  /** The errors of the ticks of `trace`, in order. */
  function Errors(trace: seq<Step>): (e: seq<real>)
    ensures |e| == |trace|
  {
    seq(|trace|, i requires 0 <= i < |trace| => trace[i].error)
  }

  /** The three phases: open loop and feed-forward on one motor, then
      `closedSteps` ticks of the unclamped PID on a new motor. */
  method Run(c: Config, openSteps: nat, ffSteps: nat, closedSteps: nat)
    returns (open: seq<OpenSample>, ff: seq<FeedSample>, trace: seq<Step>)
    ensures |open| == openSteps && OpenLoopTrace(0.0, 0, open)
    ensures |ff| == ffSteps && FeedTrace(OpenEnd(open), c.target, ff)
    ensures |trace| == closedSteps && TraceOk(c, trace)
  {
    var motor := new Motor();
    var encoder := new TickEncoder();
    open := OpenLoop(motor, encoder, openSteps);
    OpenEndSpeed(open, motor.speed);
    ff := FeedForward(motor, c.target, ffSteps);

    var integral := 0.0;
    var prevError := 0.0;
    motor := new Motor();
    trace := [];
    while |trace| < closedSteps
      invariant |trace| <= closedSteps && TraceOk(c, trace)
      invariant motor.speed == SpeedBefore(trace, |trace|)
      invariant PidState(integral, prevError) == StateBefore(trace, |trace|)
    {
      var speedBefore := motor.speed;
      var before := PidState(integral, prevError);
      var error := c.target - motor.speed;
      integral := integral + error;
      var derivative := error - prevError;
      var control := c.gains.kp * error + c.gains.ki * integral + c.gains.kd * derivative;
      var _ := motor.Update(control);
      prevError := error;
      var st := Step(speedBefore, before, error, derivative, control, PidState(integral, prevError), motor.speed);
      AppendStep(c, trace, st);
      trace := trace + [st];
    }
  }

  lemma AppendStep(c: Config, trace: seq<Step>, st: Step)
    requires TraceOk(c, trace)
    requires StepOk(c, SpeedBefore(trace, |trace|), StateBefore(trace, |trace|), st)
    ensures TraceOk(c, trace + [st])
    ensures SpeedBefore(trace + [st], |trace| + 1) == st.speedAfter
    ensures StateBefore(trace + [st], |trace| + 1) == st.after
  {
    var t := trace + [st];
    forall k | 0 <= k < |t|
      ensures StepAt(c, t, k)
    {
      assert SpeedBefore(t, k) == SpeedBefore(trace, k);
      assert StateBefore(t, k) == StateBefore(trace, k);
      if k < |trace| {
        assert StepAt(c, trace, k) && t[k] == trace[k];
      } else {
        assert t[k] == st;
      }
    }
  }

  /** Tick `k` of a valid trace: what it computed, and where it started. */
  lemma StepFacts(c: Config, trace: seq<Step>, k: nat)
    requires TraceOk(c, trace) && k < |trace|
    ensures StepOk(c, trace[k].speedBefore, trace[k].before, trace[k])
    ensures trace[k].speedBefore == if k == 0 then 0.0 else trace[k - 1].speedAfter
    ensures trace[k].before == if k == 0 then PidState(0.0, 0.0) else trace[k - 1].after
  {
    assert StepAt(c, trace, k);
  }

  /** After `k + 1` ticks the integral is the sum of the `k + 1` errors so far. */
  lemma {:induction false} IntegralIsErrorSum(c: Config, trace: seq<Step>, k: nat)
    requires TraceOk(c, trace) && k < |trace|
    ensures trace[k].after.integral == Sum(Errors(trace[..k + 1]))
  {
    StepFacts(c, trace, k);
    var e := Errors(trace[..k + 1]);
    assert e[..k] == Errors(trace[..k]);
    if k == 0 {
      assert e[..0] == [];
    } else {
      IntegralIsErrorSum(c, trace, k - 1);
      assert Errors(trace[..k]) == Errors(trace[..k - 1 + 1]);
    }
  }

  /** The derivative is the plain change of error since the previous tick (the
      first tick compares against 0), and `prev_error` becomes this tick's error. */
  lemma DerivativeChain(c: Config, trace: seq<Step>, k: nat)
    requires TraceOk(c, trace) && k < |trace|
    ensures trace[k].derivative == trace[k].error - (if k == 0 then 0.0 else trace[k - 1].error)
    ensures trace[k].after.prevError == trace[k].error
  {
    StepFacts(c, trace, k);
    if k > 0 {
      StepFacts(c, trace, k - 1);
    }
  }

  /** The control is the unsaturated weighted sum of error, accumulated integral and
      derivative, and the motor lags toward it. */
  lemma ControlLaw(c: Config, trace: seq<Step>, k: nat)
    requires TraceOk(c, trace) && k < |trace|
    ensures trace[k].error == c.target - trace[k].speedBefore
    ensures trace[k].control ==
              c.gains.kp * trace[k].error + c.gains.ki * Sum(Errors(trace[..k + 1])) + c.gains.kd * trace[k].derivative
    ensures trace[k].speedAfter == Lag(trace[k].speedBefore, trace[k].control)
  {
    StepFacts(c, trace, k);
    IntegralIsErrorSum(c, trace, k);
  }

  /** With the script's settings the first tick from rest sees the error 120, so
      the integral, the derivative and the error are all 120 and the control is
      `0.6*120 + 0.05*120 + 0.1*120 = 90`; the motor then moves to 9 RPM. */
  lemma ScriptFirstTick(trace: seq<Step>)
    requires TraceOk(SCRIPT, trace) && 0 < |trace|
    ensures trace[0].error == 120.0 && trace[0].after.integral == 120.0 && trace[0].derivative == 120.0
    ensures trace[0].control == 90.0 && trace[0].speedAfter == 9.0
  {
    StepFacts(SCRIPT, trace, 0);
  }
}
