// The clamped PID law shared by the closed-loop scripts: error, finite-difference
// derivative, a candidate integral, the raw control, and actuator saturation to
// [MIN_PWM, MAX_PWM]. Committing the candidate integral (anti-windup) and
// remembering the error are done by each loop itself, as in the scripts.
module Pid {

  const MAX_PWM: real := 100.0
  const MIN_PWM: real := -100.0

  datatype Gains = Gains(kp: real, ki: real, kd: real)

  /** The loop variables `integral` and `prev_error` carried between ticks. */
  datatype PidState = PidState(integral: real, prevError: real)

  /** The signals computed in one tick. */
  datatype Tick = Tick(error: real, derivative: real, candidate: real, raw: real, control: real)

  function Max(a: real, b: real): real { if a >= b then a else b }
  function Min(a: real, b: real): real { if a <= b then a else b }

  predicate Unsaturated(raw: real)
  {
    MIN_PWM <= raw <= MAX_PWM
  }

  /** `max(min(raw, MAX_PWM), MIN_PWM)`: the output always lies in the actuator
      range, and it equals `raw` exactly when `raw` already does. */
  function Saturate(raw: real): (control: real)
    ensures MIN_PWM <= control <= MAX_PWM
    ensures control == raw <==> Unsaturated(raw)
    ensures MAX_PWM < raw ==> control == MAX_PWM
    ensures raw < MIN_PWM ==> control == MIN_PWM
  {
    Max(Min(raw, MAX_PWM), MIN_PWM)
  }

  /** One evaluation of the PID law against `measured`, from the carried state `s`. */
  function Compute(g: Gains, s: PidState, target: real, measured: real, dt: real): (t: Tick)
    requires dt != 0.0
    ensures t.error == target - measured
    ensures MIN_PWM <= t.control <= MAX_PWM
    ensures t.control == t.raw <==> Unsaturated(t.raw)
  {
    var error := target - measured;
    var derivative := (error - s.prevError) / dt;
    var candidate := s.integral + error * dt;
    var raw := g.kp * error + g.ki * candidate + g.kd * derivative;
    Tick(error, derivative, candidate, raw, Saturate(raw))
  }

  /** The loops' bookkeeping after a tick: `if control == raw_control: integral =
      integral_candidate`, then `prev_error = error`. */
  function Commit(s: PidState, t: Tick): PidState
  {
    PidState(if t.control == t.raw then t.candidate else s.integral, t.error)
  }

  /** Anti-windup: the committed integral advances by `error * dt` exactly when
      the raw control lies within the actuator range, and is frozen otherwise; the
      control itself always lies in the range; `prev_error` becomes this error. */
  lemma AntiWindup(g: Gains, s: PidState, target: real, measured: real, dt: real)
    requires dt != 0.0
    ensures var t := Compute(g, s, target, measured, dt);
      && MIN_PWM <= t.control <= MAX_PWM
      && Commit(s, t).integral == (if Unsaturated(t.raw) then s.integral + t.error * dt else s.integral)
      && Commit(s, t).prevError == t.error
  {
  }
}
