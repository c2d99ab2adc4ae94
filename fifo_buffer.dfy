// The control loop of the full sensing pipeline: noisy encoder, moving-average
// filter, measurement delay, clamped PID with anti-windup, motor.
module FiFoBuffer {
  import opened Plant
  import opened Sensor
  import opened BoundedDeque
  import opened MovingAverage
  import opened Delay
  import opened Pid

  /** The loop's settings (`desired_speed`, gains, `dt`, window and delay sizes). */
  datatype Config = Config(target: real, gains: Gains, dt: real, windowSize: nat, delaySteps: nat)

  /** The script's own settings. */
  const SCRIPT: Config := Config(120.0, Gains(0.6, 0.05, 0.1), 0.2, 5, 5)

  predicate ValidConfig(c: Config)
  {
    c.dt != 0.0 && c.windowSize >= 1 && c.delaySteps >= 1
  }

  /** Everything one tick observes and computes. */
  datatype Step = Step(speedBefore: real, measured: real, filtered: real, delayed: real,
                       before: PidState, tick: Tick, after: PidState, speedAfter: real)

  function Measured(trace: seq<Step>): (m: seq<real>)
    ensures |m| == |trace|
  {
    seq(|trace|, i requires 0 <= i < |trace| => trace[i].measured)
  }

  function Filtered(trace: seq<Step>): (f: seq<real>)
    ensures |f| == |trace|
  {
    seq(|trace|, i requires 0 <= i < |trace| => trace[i].filtered)
  }

  /** The motor side of a tick: the speed it started from, what the encoder read
      given the noise sample, and the speed the command left. */
  ghost predicate PlantOk(speedBefore: real, noise: real, st: Step)
  {
    st.speedBefore == speedBefore &&
    st.measured == Read(speedBefore, noise) &&
    st.speedAfter == Lag(speedBefore, st.tick.control)
  }

  /** The PID side of a tick: its signals from the state it started from, and
      the state it leaves. */
  ghost predicate PidOk(c: Config, before: PidState, st: Step)
    requires ValidConfig(c)
  {
    st.before == before &&
    st.tick == Compute(c.gains, before, c.target, st.delayed, c.dt) &&
    st.after == Commit(before, st.tick)
  }

  /** The signal side of the last tick of `p`: the filter averaged the recent
      measurements, and the delay returned an earlier filtered value. */
  ghost predicate SignalOk(c: Config, p: seq<Step>)
    requires ValidConfig(c) && 0 < |p|
  {
    p[|p| - 1].filtered == Mean(Recent(Measured(p), c.windowSize)) &&
    p[|p| - 1].delayed == p[OutputIndex(|p|, c.delaySteps)].filtered
  }

  function SpeedAfter(trace: seq<Step>): real
  {
    if trace == [] then 0.0 else trace[|trace| - 1].speedAfter
  }

  function StateAfter(trace: seq<Step>): PidState
  {
    if trace == [] then PidState(0.0, 0.0) else trace[|trace| - 1].after
  }

  /** The last record of the prefix `p` did what the loop body does, given the
      records before it (`p` holds ticks 0 .. |p|-1 of a run fed `noise`). */
  ghost predicate LastOk(c: Config, noise: seq<real>, p: seq<Step>)
    requires ValidConfig(c) && 0 < |p| <= |noise|
  {
    var k := |p| - 1;
    PlantOk(SpeedAfter(p[..k]), noise[k], p[k]) &&
    PidOk(c, StateAfter(p[..k]), p[k]) &&
    SignalOk(c, p)
  }

  /** Every tick of `trace` did what the loop body does. */
  ghost predicate TraceOk(c: Config, noise: seq<real>, trace: seq<Step>)
    requires ValidConfig(c) && |trace| <= |noise|
  {
    forall n :: 0 < n <= |trace| ==> LastOk(c, noise, trace[..n])
  }

  /** A record that did what the loop body does, after the ticks `trace`, ends a
      valid prefix. */
  lemma NextOk(c: Config, noise: seq<real>, trace: seq<Step>, st: Step)
    requires ValidConfig(c) && |trace| < |noise|
    requires PlantOk(SpeedAfter(trace), noise[|trace|], st)
    requires PidOk(c, StateAfter(trace), st)
    requires st.filtered == Mean(Recent(Measured(trace) + [st.measured], c.windowSize))
    requires st.delayed == (Filtered(trace) + [st.filtered])[OutputIndex(|trace| + 1, c.delaySteps)]
    ensures LastOk(c, noise, trace + [st])
    ensures Measured(trace + [st]) == Measured(trace) + [st.measured]
    ensures Filtered(trace + [st]) == Filtered(trace) + [st.filtered]
  {
    var t := trace + [st];
    assert t[..|trace|] == trace && t[|trace|] == st;
    assert Measured(t) == Measured(trace) + [st.measured];
    assert Filtered(t) == Filtered(trace) + [st.filtered];
    assert t[OutputIndex(|t|, c.delaySteps)].filtered == Filtered(t)[OutputIndex(|t|, c.delaySteps)];
    assert SignalOk(c, t);
  }

  /** Appending a record that ends a valid prefix keeps the trace valid. */
  lemma AppendStep(c: Config, noise: seq<real>, trace: seq<Step>, st: Step)
    requires ValidConfig(c) && |trace| < |noise| && TraceOk(c, noise, trace)
    requires LastOk(c, noise, trace + [st])
    ensures TraceOk(c, noise, trace + [st])
  {
    var t := trace + [st];
    forall n | 0 < n <= |t|
      ensures LastOk(c, noise, t[..n])
    {
      if n <= |trace| {
        assert t[..n] == trace[..n];
      } else {
        assert t[..n] == t;
      }
    }
  }

  /** Tick `k` of a valid trace, read off the prefix that ends with it. */
  lemma TickAt(c: Config, noise: seq<real>, trace: seq<Step>, k: nat)
    requires ValidConfig(c) && |trace| <= |noise| && TraceOk(c, noise, trace) && k < |trace|
    ensures PlantOk(SpeedAfter(trace[..k]), noise[k], trace[k])
    ensures PidOk(c, StateAfter(trace[..k]), trace[k])
    ensures SignalOk(c, trace[..k + 1]) && trace[..k + 1][k] == trace[k]
    ensures SpeedAfter(trace[..k]) == if k == 0 then 0.0 else trace[k - 1].speedAfter
    ensures StateAfter(trace[..k]) == if k == 0 then PidState(0.0, 0.0) else trace[k - 1].after
  {
    var p := trace[..k + 1];
    assert LastOk(c, noise, p);
    assert p[..k] == trace[..k] && p[k] == trace[k];
  }

  /** The PID part of tick `k`: its signals are `Compute` of the state it
      started from, which is the state the previous tick left. */
  lemma ControlAt(c: Config, noise: seq<real>, trace: seq<Step>, k: nat)
    requires ValidConfig(c) && |trace| <= |noise| && TraceOk(c, noise, trace) && k < |trace|
    ensures trace[k].tick == Compute(c.gains, trace[k].before, c.target, trace[k].delayed, c.dt)
    ensures trace[k].after == Commit(trace[k].before, trace[k].tick)
    ensures trace[k].before == if k == 0 then PidState(0.0, 0.0) else trace[k - 1].after
  {
    TickAt(c, noise, trace, k);
  }

  /** The error is taken against the delayed measurement, the control value stays
      in the actuator range, and the integral moves by `error * dt` exactly on
      unsaturated ticks. */
  lemma ControlFacts(c: Config, noise: seq<real>, trace: seq<Step>, k: nat)
    requires ValidConfig(c) && |trace| <= |noise| && TraceOk(c, noise, trace) && k < |trace|
    ensures trace[k].tick.error == c.target - trace[k].delayed
    ensures MIN_PWM <= trace[k].tick.control <= MAX_PWM
    ensures trace[k].after.integral ==
              if Unsaturated(trace[k].tick.raw) then trace[k].before.integral + trace[k].tick.error * c.dt
              else trace[k].before.integral
    ensures trace[k].after.prevError == trace[k].tick.error
  {
    ControlAt(c, noise, trace, k);
    AntiWindup(c.gains, trace[k].before, c.target, trace[k].delayed, c.dt);
  }

  /** Each tick starts from the error the previous tick stored as `prev_error`. */
  lemma PrevErrorAt(c: Config, noise: seq<real>, trace: seq<Step>, k: nat)
    requires ValidConfig(c) && |trace| <= |noise| && TraceOk(c, noise, trace) && 0 < k < |trace|
    ensures trace[k].before.prevError == trace[k - 1].tick.error
  {
    ControlAt(c, noise, trace, k);
    ControlAt(c, noise, trace, k - 1);
  }

  /** Each tick's error, kept as `prev_error`, feeds the next tick's derivative. */
  lemma DerivativeChain(c: Config, noise: seq<real>, trace: seq<Step>, k: nat)
    requires ValidConfig(c) && |trace| <= |noise| && TraceOk(c, noise, trace) && 0 < k < |trace|
    ensures trace[k].tick.derivative * c.dt == trace[k].tick.error - trace[k - 1].tick.error
  {
    PrevErrorAt(c, noise, trace, k);
    ControlAt(c, noise, trace, k);
  }

  /** While the filter warms up it averages every measurement taken so far. */
  lemma FilterWarmUp(c: Config, noise: seq<real>, trace: seq<Step>, k: nat)
    requires ValidConfig(c) && |trace| <= |noise| && TraceOk(c, noise, trace) && k < |trace|
    requires k < c.windowSize
    ensures trace[k].filtered == Mean(Measured(trace[..k + 1]))
  {
    TickAt(c, noise, trace, k);
  }

  /** The delay repeats the first filtered value for the first `delaySteps` ticks,
      then returns the filtered value of `delaySteps - 1` ticks earlier. */
  lemma DelayFacts(c: Config, noise: seq<real>, trace: seq<Step>, k: nat)
    requires ValidConfig(c) && |trace| <= |noise| && TraceOk(c, noise, trace) && k < |trace|
    ensures k < c.delaySteps ==> trace[k].delayed == trace[0].filtered
    ensures c.delaySteps - 1 <= k ==> trace[k].delayed == trace[k - (c.delaySteps - 1)].filtered
    ensures c.delaySteps == 1 ==> trace[k].delayed == trace[k].filtered
  {
    TickAt(c, noise, trace, k);
  }

  /** With the script's settings (window and delay of 5) the first five ticks act
      on the first filtered value, and from tick 4 on each tick acts on the
      filtered value of four ticks earlier. */
  lemma ScriptDelay(noise: seq<real>, trace: seq<Step>, k: nat)
    requires |trace| <= |noise| && TraceOk(SCRIPT, noise, trace) && k < |trace|
    ensures k < 5 ==> trace[k].delayed == trace[0].filtered
    ensures 4 <= k ==> trace[k].delayed == trace[k - 4].filtered
  {
    DelayFacts(SCRIPT, noise, trace, k);
  }

  /** One pass through the loop body: sense, filter, delay, control, actuate. */
  method Tick(c: Config, motor: Motor, filt: MovingAverageFilter, delay: MeasurementDelay,
              before: PidState, noise: real) returns (st: Step)
    requires ValidConfig(c) && filt.Valid() && delay.Valid()
    requires filt.windowSize == c.windowSize && delay.delaySteps == c.delaySteps
    modifies motor, filt, delay
    ensures filt.Valid() && delay.Valid()
    ensures PlantOk(old(motor.speed), noise, st) && motor.speed == st.speedAfter
    ensures PidOk(c, before, st)
    ensures filt.pushed == old(filt.pushed) + [st.measured]
    ensures st.filtered == Mean(Recent(filt.pushed, c.windowSize))
    ensures delay.pushed == old(delay.pushed) + [st.filtered]
    ensures st.delayed == delay.pushed[OutputIndex(|delay.pushed|, c.delaySteps)]
  {
    var speedBefore := motor.speed;
    var integral := before.integral;
    var measured := Read(motor.speed, noise);
    var filtered := filt.Filter(measured);
    var delayed := delay.Apply(filtered);
    var tick := Compute(c.gains, before, c.target, delayed, c.dt);
    if tick.control == tick.raw {
      integral := tick.candidate;
    }
    var _ := motor.Update(tick.control);
    var prevError := tick.error;
    st := Step(speedBefore, measured, filtered, delayed, before, tick,
               PidState(integral, prevError), motor.speed);
  }

  /** Runs the loop once per noise sample and returns one record per tick. */
  method Run(c: Config, noise: seq<real>) returns (trace: seq<Step>)
    requires ValidConfig(c)
    ensures |trace| == |noise| && TraceOk(c, noise, trace)
  {
    var motor := new Motor();
    var filt := new MovingAverageFilter(c.windowSize);
    var delay := new MeasurementDelay(c.delaySteps);
    var state := PidState(0.0, 0.0);
    trace := [];
    while |trace| < |noise|
      invariant |trace| <= |noise| && TraceOk(c, noise, trace)
      invariant filt.Valid() && filt.windowSize == c.windowSize && filt.pushed == Measured(trace)
      invariant delay.Valid() && delay.delaySteps == c.delaySteps && delay.pushed == Filtered(trace)
      invariant motor.speed == SpeedAfter(trace) && state == StateAfter(trace)
    {
      var st := Tick(c, motor, filt, delay, state, noise[|trace|]);
      NextOk(c, noise, trace, st);
      AppendStep(c, noise, trace, st);
      trace := trace + [st];
      state := st.after;
    }
  }
}
