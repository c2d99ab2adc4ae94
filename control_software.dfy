// The control-software script: the open-loop test from rest, then a freshly
// built motor under the clamped anti-windup PID acting on the true motor speed
// (no sensor in the loop).
module ControlSoftware {
  import opened Plant
  import opened Sensor
  import opened Phases
  import opened Pid

  /** `desired_speed`, the gains and `dt`. */
  datatype Config = Config(target: real, gains: Gains, dt: real)

  /** The script's own settings. */
  const SCRIPT: Config := Config(120.0, Gains(0.6, 0.05, 0.1), 0.2)

  predicate ValidConfig(c: Config)
  {
    c.dt != 0.0
  }

  /** One closed-loop tick: the speed and PID state it started from, what the PID
      computed, and the state and speed it left. */
  datatype Step = Step(speedBefore: real, before: PidState, tick: Tick, after: PidState, speedAfter: real)

  /** The motor speed tick `k` starts from; the closed loop starts on a new motor. */
  function SpeedBefore(trace: seq<Step>, k: nat): real
    requires k <= |trace|
  {
    if k == 0 then 0.0 else trace[k - 1].speedAfter
  }

  /** The `integral`/`prev_error` pair tick `k` starts from. */
  function StateBefore(trace: seq<Step>, k: nat): PidState
    requires k <= |trace|
  {
    if k == 0 then PidState(0.0, 0.0) else trace[k - 1].after
  }

  /** One pass of the loop body from `speedBefore` and `before`. */
  ghost predicate StepOk(c: Config, speedBefore: real, before: PidState, st: Step)
    requires ValidConfig(c)
  {
    st.speedBefore == speedBefore && st.before == before &&
    st.tick == Compute(c.gains, before, c.target, speedBefore, c.dt) &&
    st.after == Commit(before, st.tick) &&
    st.speedAfter == Lag(speedBefore, st.tick.control)
  }

  /** Tick `k` continued from the one before it. */
  ghost predicate StepAt(c: Config, trace: seq<Step>, k: nat)
    requires ValidConfig(c) && k < |trace|
  {
    StepOk(c, SpeedBefore(trace, k), StateBefore(trace, k), trace[k])
  }

  /** Every tick of `trace` continued from the one before it. */
  ghost predicate TraceOk(c: Config, trace: seq<Step>)
    requires ValidConfig(c)
  {
    forall k :: 0 <= k < |trace| ==> StepAt(c, trace, k)
  }

  /** The open-loop test on a new motor and encoder, then `closedSteps` ticks of
      the clamped PID on another new motor. */
  method Run(c: Config, openSteps: nat, closedSteps: nat)
    returns (open: seq<OpenSample>, trace: seq<Step>)
    requires ValidConfig(c)
    ensures |open| == openSteps && OpenLoopTrace(0.0, 0, open)
    ensures forall k :: 0 <= k < |open| ==> 0.0 <= open[k].speed < OPEN_LOOP_PWM
    ensures forall k :: 0 < k < |open| ==> open[k - 1].speed < open[k].speed
    ensures |trace| == closedSteps && TraceOk(c, trace)
    // the closed loop starts from rest whatever the open loop did
    ensures 0 < |trace| ==> trace[0].speedBefore == 0.0 && trace[0].before == PidState(0.0, 0.0)
  {
    var motor := new Motor();
    var encoder := new TickEncoder();
    open := OpenLoop(motor, encoder, openSteps);
    OpenLoopFromRest(open);

    var integral := 0.0;
    var prevError := 0.0;
    motor := new Motor();
    trace := [];
    while |trace| < closedSteps
      invariant |trace| <= closedSteps && TraceOk(c, trace)
      invariant motor.speed == SpeedBefore(trace, |trace|)
      invariant PidState(integral, prevError) == StateBefore(trace, |trace|)
    {
      var speedBefore := motor.speed;
      var before := PidState(integral, prevError);
      var tick := Compute(c.gains, before, c.target, motor.speed, c.dt);
      if tick.control == tick.raw {
        integral := tick.candidate;
      }
      var _ := motor.Update(tick.control);
      prevError := tick.error;
      var st := Step(speedBefore, before, tick, PidState(integral, prevError), motor.speed);
      AppendStep(c, trace, st);
      trace := trace + [st];
    }
    if 0 < |trace| {
      ControlAt(c, trace, 0);
    }
  }

  lemma AppendStep(c: Config, trace: seq<Step>, st: Step)
    requires ValidConfig(c) && TraceOk(c, trace)
    requires StepOk(c, SpeedBefore(trace, |trace|), StateBefore(trace, |trace|), st)
    ensures TraceOk(c, trace + [st])
    ensures SpeedBefore(trace + [st], |trace| + 1) == st.speedAfter
    ensures StateBefore(trace + [st], |trace| + 1) == st.after
  {
    var t := trace + [st];
    forall k | 0 <= k < |t|
      ensures StepAt(c, t, k)
    {
      assert SpeedBefore(t, k) == SpeedBefore(trace, k);
      assert StateBefore(t, k) == StateBefore(trace, k);
      if k < |trace| {
        assert StepAt(c, trace, k) && t[k] == trace[k];
      } else {
        assert t[k] == st;
      }
    }
  }

  /** Tick `k` of a valid trace: what it computed, and where it started. */
  lemma ControlAt(c: Config, trace: seq<Step>, k: nat)
    requires ValidConfig(c) && TraceOk(c, trace) && k < |trace|
    ensures trace[k].tick == Compute(c.gains, trace[k].before, c.target, trace[k].speedBefore, c.dt)
    ensures trace[k].after == Commit(trace[k].before, trace[k].tick)
    ensures trace[k].speedAfter == Lag(trace[k].speedBefore, trace[k].tick.control)
    ensures trace[k].speedBefore == if k == 0 then 0.0 else trace[k - 1].speedAfter
    ensures trace[k].before == if k == 0 then PidState(0.0, 0.0) else trace[k - 1].after
  {
    assert StepAt(c, trace, k);
  }

  /** The error is taken against the true speed, the control stays in
      `[MIN_PWM, MAX_PWM]`, the integral advances by `error * dt` only on
      unsaturated ticks, and `prev_error` becomes this tick's error. */
  lemma ControlFacts(c: Config, trace: seq<Step>, k: nat)
    requires ValidConfig(c) && TraceOk(c, trace) && k < |trace|
    ensures trace[k].tick.error == c.target - trace[k].speedBefore
    ensures MIN_PWM <= trace[k].tick.control <= MAX_PWM
    ensures trace[k].after.integral ==
              if Unsaturated(trace[k].tick.raw) then trace[k].before.integral + trace[k].tick.error * c.dt
              else trace[k].before.integral
    ensures trace[k].after.prevError == trace[k].tick.error
  {
    ControlAt(c, trace, k);
    AntiWindup(c.gains, trace[k].before, c.target, trace[k].speedBefore, c.dt);
  }

  /** Each tick starts from the error the previous tick stored as `prev_error`. */
  lemma PrevErrorAt(c: Config, trace: seq<Step>, k: nat)
    requires ValidConfig(c) && TraceOk(c, trace) && 0 < k < |trace|
    ensures trace[k].before.prevError == trace[k - 1].tick.error
  {
    ControlAt(c, trace, k);
    ControlAt(c, trace, k - 1);
  }

  /** The derivative times `dt` is the change in error since the previous tick. */
  lemma DerivativeChain(c: Config, trace: seq<Step>, k: nat)
    requires ValidConfig(c) && TraceOk(c, trace) && 0 < k < |trace|
    ensures trace[k].tick.derivative * c.dt == trace[k].tick.error - trace[k - 1].tick.error
  {
    PrevErrorAt(c, trace, k);
    ControlAt(c, trace, k);
  }

  /** With the script's settings the first closed-loop tick sees the full error of
      120 RPM, its derivative is `120 / 0.2`, and the raw control `72 + 1.2 + 60`
      exceeds the actuator range, so it is clamped to 100 and the integral stays 0. */
  lemma ScriptFirstTick(trace: seq<Step>)
    requires TraceOk(SCRIPT, trace) && 0 < |trace|
    ensures trace[0].tick.error == 120.0 && trace[0].tick.derivative == 600.0
    ensures trace[0].tick.raw == 133.2 && trace[0].tick.control == MAX_PWM
    ensures trace[0].after.integral == 0.0
  {
    ControlAt(SCRIPT, trace, 0);
  }
}
