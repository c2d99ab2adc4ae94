// The control loop with a noisy encoder and a moving-average filter but no
// measurement delay: the clamped anti-windup PID acts on the filtered speed.
module NoiseFilterPid {
  import opened Plant
  import opened Sensor
  import opened BoundedDeque
  import opened MovingAverage
  import opened Pid

  /** The loop's settings (`desired_speed`, gains, `dt`, window size). */
  datatype Config = Config(target: real, gains: Gains, dt: real, windowSize: nat)

  /** The script's own settings. */
  const SCRIPT: Config := Config(120.0, Gains(0.6, 0.05, 0.1), 0.2, 5)

  predicate ValidConfig(c: Config)
  {
    c.dt != 0.0 && c.windowSize >= 1
  }

  /** Everything one tick observes and computes. */
  datatype Step = Step(speedBefore: real, measured: real, filtered: real,
                       before: PidState, tick: Tick, after: PidState, speedAfter: real)

  function Measured(trace: seq<Step>): (m: seq<real>)
    ensures |m| == |trace|
  {
    seq(|trace|, i requires 0 <= i < |trace| => trace[i].measured)
  }

  function SpeedAfter(trace: seq<Step>): real
  {
    if trace == [] then 0.0 else trace[|trace| - 1].speedAfter
  }

  function StateAfter(trace: seq<Step>): PidState
  {
    if trace == [] then PidState(0.0, 0.0) else trace[|trace| - 1].after
  }

  /** The motor side of a tick: the speed it started from, what the encoder read
      given the noise sample, and the speed the command left. */
  ghost predicate PlantOk(speedBefore: real, noise: real, st: Step)
  {
    st.speedBefore == speedBefore &&
    st.measured == Read(speedBefore, noise) &&
    st.speedAfter == Lag(speedBefore, st.tick.control)
  }

  /** The PID side of a tick, driven by the filtered speed. */
  ghost predicate PidOk(c: Config, before: PidState, st: Step)
    requires ValidConfig(c)
  {
    st.before == before &&
    st.tick == Compute(c.gains, before, c.target, st.filtered, c.dt) &&
    st.after == Commit(before, st.tick)
  }

  /** The filter side of the last tick of `p`: the mean of the recent measurements. */
  ghost predicate FilterOk(c: Config, p: seq<Step>)
    requires ValidConfig(c) && 0 < |p|
  {
    p[|p| - 1].filtered == Mean(Recent(Measured(p), c.windowSize))
  }

  /** The last record of the prefix `p` did what the loop body does. */
  ghost predicate LastOk(c: Config, noise: seq<real>, p: seq<Step>)
    requires ValidConfig(c) && 0 < |p| <= |noise|
  {
    var k := |p| - 1;
    PlantOk(SpeedAfter(p[..k]), noise[k], p[k]) &&
    PidOk(c, StateAfter(p[..k]), p[k]) &&
    FilterOk(c, p)
  }

  /** Every tick of `trace` did what the loop body does. */
  ghost predicate TraceOk(c: Config, noise: seq<real>, trace: seq<Step>)
    requires ValidConfig(c) && |trace| <= |noise|
  {
    forall n :: 0 < n <= |trace| ==> LastOk(c, noise, trace[..n])
  }

  lemma NextOk(c: Config, noise: seq<real>, trace: seq<Step>, st: Step)
    requires ValidConfig(c) && |trace| < |noise|
    requires PlantOk(SpeedAfter(trace), noise[|trace|], st)
    requires PidOk(c, StateAfter(trace), st)
    requires st.filtered == Mean(Recent(Measured(trace) + [st.measured], c.windowSize))
    ensures LastOk(c, noise, trace + [st])
    ensures Measured(trace + [st]) == Measured(trace) + [st.measured]
  {
    var t := trace + [st];
    assert t[..|trace|] == trace && t[|trace|] == st;
    assert Measured(t) == Measured(trace) + [st.measured];
    assert FilterOk(c, t);
  }

  lemma AppendStep(c: Config, noise: seq<real>, trace: seq<Step>, st: Step)
    requires ValidConfig(c) && |trace| < |noise| && TraceOk(c, noise, trace)
    requires LastOk(c, noise, trace + [st])
    ensures TraceOk(c, noise, trace + [st])
  {
    var t := trace + [st];
    forall n | 0 < n <= |t|
      ensures LastOk(c, noise, t[..n])
    {
      if n <= |trace| {
        assert t[..n] == trace[..n];
      } else {
        assert t[..n] == t;
      }
    }
  }

  /** Tick `k` of a valid trace, read off the prefix that ends with it. */
  lemma TickAt(c: Config, noise: seq<real>, trace: seq<Step>, k: nat)
    requires ValidConfig(c) && |trace| <= |noise| && TraceOk(c, noise, trace) && k < |trace|
    ensures PlantOk(SpeedAfter(trace[..k]), noise[k], trace[k])
    ensures PidOk(c, StateAfter(trace[..k]), trace[k])
    ensures FilterOk(c, trace[..k + 1]) && trace[..k + 1][k] == trace[k]
    ensures SpeedAfter(trace[..k]) == if k == 0 then 0.0 else trace[k - 1].speedAfter
    ensures StateAfter(trace[..k]) == if k == 0 then PidState(0.0, 0.0) else trace[k - 1].after
  {
    var p := trace[..k + 1];
    assert LastOk(c, noise, p);
    assert p[..k] == trace[..k] && p[k] == trace[k];
  }

  lemma ControlAt(c: Config, noise: seq<real>, trace: seq<Step>, k: nat)
    requires ValidConfig(c) && |trace| <= |noise| && TraceOk(c, noise, trace) && k < |trace|
    ensures trace[k].tick == Compute(c.gains, trace[k].before, c.target, trace[k].filtered, c.dt)
    ensures trace[k].after == Commit(trace[k].before, trace[k].tick)
    ensures trace[k].before == if k == 0 then PidState(0.0, 0.0) else trace[k - 1].after
  {
    TickAt(c, noise, trace, k);
  }

  /** The error is taken against the filtered measurement, the control value
      stays in the actuator range, and the integral moves by `error * dt` exactly
      on unsaturated ticks. */
  lemma ControlFacts(c: Config, noise: seq<real>, trace: seq<Step>, k: nat)
    requires ValidConfig(c) && |trace| <= |noise| && TraceOk(c, noise, trace) && k < |trace|
    ensures trace[k].tick.error == c.target - trace[k].filtered
    ensures MIN_PWM <= trace[k].tick.control <= MAX_PWM
    ensures trace[k].after.integral ==
              if Unsaturated(trace[k].tick.raw) then trace[k].before.integral + trace[k].tick.error * c.dt
              else trace[k].before.integral
    ensures trace[k].after.prevError == trace[k].tick.error
  {
    ControlAt(c, noise, trace, k);
    AntiWindup(c.gains, trace[k].before, c.target, trace[k].filtered, c.dt);
  }

  /** Each tick starts from the error the previous tick stored as `prev_error`. */
  lemma PrevErrorAt(c: Config, noise: seq<real>, trace: seq<Step>, k: nat)
    requires ValidConfig(c) && |trace| <= |noise| && TraceOk(c, noise, trace) && 0 < k < |trace|
    ensures trace[k].before.prevError == trace[k - 1].tick.error
  {
    ControlAt(c, noise, trace, k);
    ControlAt(c, noise, trace, k - 1);
  }

  /** Each tick's error, kept as `prev_error`, feeds the next tick's derivative. */
  lemma DerivativeChain(c: Config, noise: seq<real>, trace: seq<Step>, k: nat)
    requires ValidConfig(c) && |trace| <= |noise| && TraceOk(c, noise, trace) && 0 < k < |trace|
    ensures trace[k].tick.derivative * c.dt == trace[k].tick.error - trace[k - 1].tick.error
  {
    PrevErrorAt(c, noise, trace, k);
    ControlAt(c, noise, trace, k);
  }

  /** While the filter warms up it averages every measurement taken so far. */
  lemma FilterWarmUp(c: Config, noise: seq<real>, trace: seq<Step>, k: nat)
    requires ValidConfig(c) && |trace| <= |noise| && TraceOk(c, noise, trace) && k < |trace|
    requires k < c.windowSize
    ensures trace[k].filtered == Mean(Measured(trace[..k + 1]))
  {
    TickAt(c, noise, trace, k);
  }

  /** With the script's window of 5, each of the first five ticks acts on the mean
      of every measurement so far. */
  lemma ScriptWarmUp(noise: seq<real>, trace: seq<Step>, k: nat)
    requires |trace| <= |noise| && TraceOk(SCRIPT, noise, trace) && k < |trace| && k < 5
    ensures trace[k].filtered == Mean(Measured(trace[..k + 1]))
    ensures trace[k].tick.error == SCRIPT.target - Mean(Measured(trace[..k + 1]))
  {
    FilterWarmUp(SCRIPT, noise, trace, k);
    ControlFacts(SCRIPT, noise, trace, k);
  }

  /** One pass through the loop body: sense, filter, control, actuate. */
  method Tick(c: Config, motor: Motor, filt: MovingAverageFilter, before: PidState, noise: real)
    returns (st: Step)
    requires ValidConfig(c) && filt.Valid() && filt.windowSize == c.windowSize
    modifies motor, filt
    ensures filt.Valid()
    ensures PlantOk(old(motor.speed), noise, st) && motor.speed == st.speedAfter
    ensures PidOk(c, before, st)
    ensures filt.pushed == old(filt.pushed) + [st.measured]
    ensures st.filtered == Mean(Recent(filt.pushed, c.windowSize))
  {
    var speedBefore := motor.speed;
    var integral := before.integral;
    var measured := Read(motor.speed, noise);
    var filtered := filt.Filter(measured);
    var tick := Compute(c.gains, before, c.target, filtered, c.dt);
    if tick.control == tick.raw {
      integral := tick.candidate;
    }
    var _ := motor.Update(tick.control);
    var prevError := tick.error;
    st := Step(speedBefore, measured, filtered, before, tick, PidState(integral, prevError), motor.speed);
  }

  /** Runs the loop once per noise sample and returns one record per tick. */
  method Run(c: Config, noise: seq<real>) returns (trace: seq<Step>)
    requires ValidConfig(c)
    ensures |trace| == |noise| && TraceOk(c, noise, trace)
  {
    var motor := new Motor();
    var filt := new MovingAverageFilter(c.windowSize);
    var state := PidState(0.0, 0.0);
    trace := [];
    while |trace| < |noise|
      invariant |trace| <= |noise| && TraceOk(c, noise, trace)
      invariant filt.Valid() && filt.windowSize == c.windowSize && filt.pushed == Measured(trace)
      invariant motor.speed == SpeedAfter(trace) && state == StateAfter(trace)
    {
      var st := Tick(c, motor, filt, state, noise[|trace|]);
      NextOk(c, noise, trace, st);
      AppendStep(c, noise, trace, st);
      trace := trace + [st];
      state := st.after;
    }
  }
}
