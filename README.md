# Robotics Foundation speed control, modelled in Dafny

This project models the speed-control scripts of the Robotics Foundation
repository, plus its 2×2 linear-algebra exercises.

The speed-control scripts (`noiseFilterPID.py` at the top level, the others under
`Week2_Sensors_software/`) are built from four parts, not all present in every script:
- a simulated DC motor that moves a tenth of the way toward its PWM command on every call (all five scripts);
- a tick encoder that adds `int(speed * 0.5)` (`controlsoftware.py`, `Motorsim_PID.py`, `motorsimulation.py`); in `FiFoBuffer.py` and `noiseFilterPID.py` the `Encoder` instead only reads the speed with Gaussian noise added;
- a moving-average filter over a `deque(maxlen=window_size)` (`FiFoBuffer.py`, `noiseFilterPID.py`);
- a measurement delay built on a second bounded deque (`FiFoBuffer.py` only).

The scripts wire these parts into loops:
- an open-loop test at full PWM;
- a feed-forward run that commands the desired speed;
- clamped PID loops with anti-windup:
  - on the true speed (`controlsoftware.py`);
  - on the filtered speed (`noiseFilterPID.py`);
  - on the filtered and delayed speed (`FiFoBuffer.py`);
- an unclamped PID with no `dt` (`Motorsim_PID.py`).

Modules:

| module | file | what it holds |
|---|---|---|
| `Plant` | plant.dfy | `Motor` (a class whose `speed` is updated in place), the lag `Lag` and its n-fold iterate `LagN` |
| `Sensor` | sensor.dfy | `TickEncoder`; Python's truncating `int()`; the noisy reading `Read`, which takes the Gaussian sample as an argument |
| `BoundedDeque` | deque.dfy | a bounded `deque` as a sequence: appending keeps the last `maxlen` elements |
| `MovingAverage` | filter.dfy | `MovingAverageFilter`, a class with the window as a `seq` field and the history of pushes as ghost state |
| `Delay` | delay.dfy | `MeasurementDelay`, with its peek-while-filling / pop-once-full behaviour |
| `Pid` | pid.dfy | the clamped PID law, saturation and the anti-windup commit |
| `Phases` | open_loop.dfy | the open-loop and feed-forward loops as methods on a shared motor and encoder |
| `FiFoBuffer`, `NoiseFilterPid`, `ControlSoftware`, `MotorsimPid`, `MotorSimulation` | one file per script | each script's loop as a driver method |
| `Transform2D` | transform2d.dfy | `apply_transform`, `multiply_matrices`, `inverse_rotation` and the lemmas about them |

The shared parts are modelled once. `Motor.update` is the same in all five scripts; the tick counter `Encoder.update` is the same in the three scripts that have it; the noisy `Encoder.read` and the filter are the same in `FiFoBuffer.py` and `noiseFilterPID.py`.

Each driver method builds its own objects and runs the loop. It returns the trace of what every tick observed and computed, and its postcondition states that the trace obeys the script's loop body tick by tick. The lemmas beside each driver then read properties off any such trace:
- control bounds;
- anti-windup gating;
- the `prev_error` → derivative chain;
- filter warm-up;
- delay latency;
- the integral as a running sum.

Python floats are modelled as exact reals.

The delay's latency does not match its name. The class is a measurement delay of `delay_steps`, but it pops as soon as an append makes the length equal to `maxlen`. That pop brings the length back to `delay_steps - 1`, so the deque's own eviction never fires. The effective latency is therefore `delay_steps - 1` calls, not `delay_steps`: the first `delay_steps` outputs all equal the first input, and with `delay_steps = 1` there is no delay at all. The model follows the code (`Delay.OutputIndex`, `FiFoBuffer.DelayFacts`).

The labels `4_matrix_composition.py` prints are swapped relative to the arithmetic. `combined_1 = multiply_matrices(scale, rotation)` rotates first and then scales, yet it is printed as "Scale then Rotate". The model states what the products compute (`Transform2D.OrderMatters`).

## Model

| member | source | states |
|---|---|---|
| Plant.Lag | Week2_Sensors_software/FiFoBuffer.py:14 | one motor tick, `speed + 0.1*(pwm - speed)`; its properties are stated by `LagBetween` and `LagErrorShrinks` |
| Plant.LagN | Week2_Sensors_software/FiFoBuffer.py:14 | n motor ticks under one constant command; its properties are stated by `LagNError`, `LagNRises`, `LagNFalls` and `LagNNonNegative` |
| Plant.LagBetween | Week2_Sensors_software/FiFoBuffer.py:12-15 | one motor tick sets the speed to `0.9*speed + 0.1*pwm`, which lies between the old speed and the command (strictly when they differ) |
| Plant.LagErrorShrinks | Week2_Sensors_software/motorsimulation.py:7-10 | the tracking error `pwm - speed` is multiplied by exactly 0.9 per tick |
| Plant.LagNError | Week2_Sensors_software/Motorsim_PID.py:33-35 | after n ticks at a constant command the error is `0.9^n` times the initial error |
| Plant.LagNRises | Week2_Sensors_software/controlsoftware.py:37-38 | below a constant command the speed rises strictly every tick and never reaches the command |
| Plant.LagNFalls | Week2_Sensors_software/FiFoBuffer.py:12-15 | a general property of the motor model, not exercised by any script: above a constant command the speed falls strictly and stays above it |
| Plant.LagNNonNegative | Week2_Sensors_software/motorsimulation.py:25-26 | a non-negative speed under a non-negative command stays non-negative |
| Plant.Motor.constructor | Week2_Sensors_software/FiFoBuffer.py:9-10 | a new motor is at rest |
| Plant.Motor.Update | Week2_Sensors_software/FiFoBuffer.py:12-15 | the speed field becomes the lag of the old speed toward `pwm`, lies between them, and is returned |
| Sensor.TruncToInt | Week2_Sensors_software/controlsoftware.py:17-19 | `int(x)` truncates toward zero: the floor for non-negative x, the ceiling for negative x |
| Sensor.TicksForNonNegative | Week2_Sensors_software/controlsoftware.py:17-19 | for a non-negative speed the tick increment is the whole part of `speed*0.5` and is never negative |
| Sensor.Read | Week2_Sensors_software/FiFoBuffer.py:25-27 | the noisy reading is the true speed plus the noise sample, which the model takes as an argument instead of drawing it |
| Sensor.TickEncoder.constructor | Week2_Sensors_software/motorsimulation.py:13-14 | a new encoder has counted no ticks |
| Sensor.TickEncoder.Update | Week2_Sensors_software/Motorsim_PID.py:16-18 | `ticks` grows by `int(speed*0.5)` and the new total is returned; it never decreases for a non-negative speed |
| BoundedDeque.Recent | Week2_Sensors_software/FiFoBuffer.py:35 | a deque with `maxlen = n` holds `min(len, n)` elements |
| BoundedDeque.RecentAt | Week2_Sensors_software/FiFoBuffer.py:35-38 | the deque holds the most recent values in arrival order: a suffix of everything appended |
| BoundedDeque.BoundedAppend | Week2_Sensors_software/FiFoBuffer.py:38 | `deque.append` on a deque with `maxlen`: the last `maxlen` elements of the deque with the value added; stated by `AppendNoEviction` and `RecentAppend` |
| BoundedDeque.AppendNoEviction | Week2_Sensors_software/FiFoBuffer.py:47-50 | appending to a deque below its `maxlen` evicts nothing |
| BoundedDeque.RecentAppend | Week2_Sensors_software/FiFoBuffer.py:35-38 | appending to the last-`n` window of a history gives the last-`n` window of the extended history, with the oldest value evicted |
| MovingAverage.Sum | Week2_Sensors_software/FiFoBuffer.py:39 | `sum(window)`, accumulated left to right; bounded by `SumBounds` |
| MovingAverage.Mean | Week2_Sensors_software/FiFoBuffer.py:39 | `sum(window) / len(window)` on a non-empty window; bounded by `MeanBounds`, constant windows by `MeanConstant` |
| MovingAverage.SumBounds | Week2_Sensors_software/FiFoBuffer.py:39 | a sum of values in `[lo, hi]` lies between `len*lo` and `len*hi` |
| MovingAverage.MeanBounds | Week2_Sensors_software/FiFoBuffer.py:39 | the mean of values in `[lo, hi]` lies in `[lo, hi]` |
| MovingAverage.MeanConstant | Week2_Sensors_software/FiFoBuffer.py:39 | the mean of a window of equal values is that value |
| MovingAverage.MovingAverageFilter.constructor | Week2_Sensors_software/FiFoBuffer.py:34-35 | a new filter has an empty window of capacity `window_size >= 1` |
| MovingAverage.MovingAverageFilter.Filter | Week2_Sensors_software/FiFoBuffer.py:37-39 | the window becomes the last `window_size` values pushed, ending in this one; the length is between 1 and `window_size` and the result is their mean |
| MovingAverage.WarmUpMean | noiseFilterPID.py:32-34 | a general property of the bounded window: while at most `window_size` values have been pushed, the window is all of them, so the output is the mean of every value pushed so far |
| MovingAverage.SteadyConstant | Week2_Sensors_software/FiFoBuffer.py:37-39 | once the last `window_size` pushes all equal `c`, the output is `c` |
| Delay.OutputIndex | Week2_Sensors_software/FiFoBuffer.py:49-56 | counting calls and inputs from 1, calls 1 to `delay_steps` return input 1, and any later call n returns input `n - (delay_steps - 1)` |
| Delay.MeasurementDelay.constructor | Week2_Sensors_software/FiFoBuffer.py:46-47 | a new delay has an empty buffer |
| Delay.MeasurementDelay.Apply | Week2_Sensors_software/FiFoBuffer.py:49-56 | while filling, the oldest value is peeked and kept; once an append fills the buffer it is popped and the length drops back to `delay_steps - 1`; the length never reaches `delay_steps` after the call; the output is the input `OutputIndex` names |
| Pid.Saturate | Week2_Sensors_software/FiFoBuffer.py:102 | the clamped control lies in `[-100, 100]`, equals the raw control exactly when that is in range, and otherwise is the limit it crossed |
| Pid.Compute | Week2_Sensors_software/FiFoBuffer.py:91-102 | the error is `target - measured`; the control lies in `[-100, 100]` and equals the raw control exactly when unsaturated |
| Pid.Commit | Week2_Sensors_software/FiFoBuffer.py:105-111 | keeps the candidate integral only when the control was not clamped, and stores the error as `prev_error`; stated by `AntiWindup` |
| Pid.AntiWindup | Week2_Sensors_software/FiFoBuffer.py:104-111 | the committed integral is `integral + error*dt` exactly when the raw control is in range and is unchanged otherwise; `prev_error` becomes the error |
| FiFoBuffer.Tick | Week2_Sensors_software/FiFoBuffer.py:85-111 | one loop pass: read with the given noise, filter, delay, PID on the delayed value, commit, update the motor |
| FiFoBuffer.Run | Week2_Sensors_software/FiFoBuffer.py:62-111 | from a new motor, filter and delay, the loop produces one record per noise sample, each obeying the loop body |
| FiFoBuffer.NextOk | Week2_Sensors_software/FiFoBuffer.py:85-111 | a tick that continues a trace correctly extends it by a correct last record |
| FiFoBuffer.AppendStep | Week2_Sensors_software/FiFoBuffer.py:83-111 | extending a correct trace by a correct tick keeps it correct |
| FiFoBuffer.TickAt | Week2_Sensors_software/FiFoBuffer.py:85-111 | tick k of a correct trace follows the plant, PID and signal rules from the state tick k-1 left |
| FiFoBuffer.ControlAt | Week2_Sensors_software/FiFoBuffer.py:91-111 | tick k applies the PID law to its delayed value and starts from the previous tick's state (zero at the start) |
| FiFoBuffer.ControlFacts | Week2_Sensors_software/FiFoBuffer.py:91-111 | every tick's error uses the delayed speed, its control lies in `[-100, 100]` and its integral advances by `error*dt` only when unsaturated |
| FiFoBuffer.PrevErrorAt | Week2_Sensors_software/FiFoBuffer.py:111 | each tick starts from the previous tick's error |
| FiFoBuffer.DerivativeChain | Week2_Sensors_software/FiFoBuffer.py:92 | each tick's derivative times `dt` is its error minus the previous tick's error |
| FiFoBuffer.FilterWarmUp | Week2_Sensors_software/FiFoBuffer.py:86-87 | during the first `window_size` ticks the filtered value is the mean of all measurements so far |
| FiFoBuffer.DelayFacts | Week2_Sensors_software/FiFoBuffer.py:88 | the delayed value of tick k is the first filtered value while `k < delay_steps`, is the filtered value of tick `k - (delay_steps - 1)` from then on, and is the tick's own filtered value when `delay_steps = 1` |
| FiFoBuffer.ScriptDelay | Week2_Sensors_software/FiFoBuffer.py:64-66 | with the script's window and delay of 5, ticks 0 to 4 act on the first filtered value and every later tick k on the filtered value of tick k-4 |
| NoiseFilterPid.Tick | noiseFilterPID.py:57-77 | one loop pass: read with the given noise, filter, PID on the filtered value, commit, update the motor |
| NoiseFilterPid.Run | noiseFilterPID.py:37-77 | from a new motor and filter, the loop produces one record per noise sample, each obeying the loop body |
| NoiseFilterPid.NextOk | noiseFilterPID.py:57-77 | a tick that continues a trace correctly extends it by a correct last record |
| NoiseFilterPid.AppendStep | noiseFilterPID.py:55-77 | extending a correct trace by a correct tick keeps it correct |
| NoiseFilterPid.TickAt | noiseFilterPID.py:57-77 | tick k of a correct trace follows the plant, PID and filter rules from the state tick k-1 left |
| NoiseFilterPid.ControlAt | noiseFilterPID.py:60-77 | tick k applies the PID law to its filtered value and starts from the previous tick's state |
| NoiseFilterPid.ControlFacts | noiseFilterPID.py:60-73 | the error uses the filtered speed with no delay; the control lies in `[-100, 100]`; the integral is committed only when unsaturated; `prev_error` becomes the error |
| NoiseFilterPid.PrevErrorAt | noiseFilterPID.py:77 | each tick starts from the previous tick's error |
| NoiseFilterPid.DerivativeChain | noiseFilterPID.py:61 | each tick's derivative times `dt` is its error minus the previous one |
| NoiseFilterPid.FilterWarmUp | noiseFilterPID.py:57-58 | during the first `window_size` ticks the filtered value is the mean of all measurements so far |
| NoiseFilterPid.ScriptWarmUp | noiseFilterPID.py:39-60 | with the script's window of 5, each of the first five ticks takes its error against the mean of every measurement so far |
| Phases.OpenLoop | Week2_Sensors_software/motorsimulation.py:25-29 | each open-loop tick reports the speed after k+1 lags toward 100 and the running tick total |
| Phases.FeedForward | Week2_Sensors_software/motorsimulation.py:33-37 | each feed-forward tick reports the speed after k+1 lags toward the desired speed and `desired - speed` |
| Phases.OpenTicksAccumulate | Week2_Sensors_software/motorsimulation.py:26-27 | each open-loop report adds `int(speed*0.5)` of its own new speed to the previous total |
| Phases.FeedSteps | Week2_Sensors_software/motorsimulation.py:33-35 | each feed-forward tick lags the previous speed toward the command, starting from the speed the motor had |
| Phases.OpenTicksMonotone | Week2_Sensors_software/motorsimulation.py:16-18 | from a non-negative speed the tick total never decreases |
| Phases.OpenLoopFromRest | Week2_Sensors_software/controlsoftware.py:37-39 | from rest at `pwm=100` the speed stays in `[0, 100)`, rises strictly, and the ticks never decrease |
| Phases.FeedErrorDecay | Week2_Sensors_software/Motorsim_PID.py:33-35 | the feed-forward error after tick k is `0.9^(k+1)` times the initial error, so it shrinks by 0.9 per tick and stays positive from below the command |
| Phases.OpenEndSpeed | Week2_Sensors_software/motorsimulation.py:25-34 | the speed the open loop leaves is its last report and lies in `[0, 100)` |
| MotorSimulation.Run | Week2_Sensors_software/motorsimulation.py:21-37 | open-loop report k is the speed after k+1 ticks toward 100 from rest with the running tick total; feed-forward report k is the speed after k+1 ticks toward the desired speed from where the open loop left the motor, with no reset; open-loop speeds are in `[0, 100)` and rise strictly; ticks accumulate and never decrease; the feed-forward error shrinks by 0.9 per tick and is positive for a desired speed of at least 100 |
| MotorSimulation.ScriptErrorsPositive | Week2_Sensors_software/motorsimulation.py:31-35 | with the desired speed 120 every feed-forward error lies in `(0, 120)` |
| ControlSoftware.Run | Week2_Sensors_software/controlsoftware.py:25-76 | the open loop runs from rest; the closed loop starts on a new motor at speed 0 with zero integral and error, and every tick obeys the loop body |
| ControlSoftware.AppendStep | Week2_Sensors_software/controlsoftware.py:56-76 | extending a correct trace by a correct tick keeps it correct |
| ControlSoftware.ControlAt | Week2_Sensors_software/controlsoftware.py:56-76 | tick k applies the PID law to the true speed it started from, which the previous tick left |
| ControlSoftware.ControlFacts | Week2_Sensors_software/controlsoftware.py:57-76 | the error uses the true speed; the control lies in `[-100, 100]`; the integral advances by `error*dt` only on unclamped ticks; `prev_error` becomes the error |
| ControlSoftware.PrevErrorAt | Week2_Sensors_software/controlsoftware.py:76 | each tick starts from the previous tick's error |
| ControlSoftware.DerivativeChain | Week2_Sensors_software/controlsoftware.py:62 | each tick's derivative times `dt` is its error minus the previous one |
| ControlSoftware.ScriptFirstTick | Week2_Sensors_software/controlsoftware.py:47-72 | with the script's settings the first tick has error 120, derivative 600 and raw control 133.2, so it is clamped to 100 and the integral is not committed |
| MotorsimPid.Run | Week2_Sensors_software/Motorsim_PID.py:21-55 | the open loop runs from rest; feed-forward continues on the same motor; the PID then runs on a new motor, every tick obeying the loop body |
| MotorsimPid.AppendStep | Week2_Sensors_software/Motorsim_PID.py:45-53 | extending a correct trace by a correct tick keeps it correct |
| MotorsimPid.StepFacts | Week2_Sensors_software/Motorsim_PID.py:45-53 | tick k follows the loop body from the speed and state tick k-1 left (rest and zero at the start) |
| MotorsimPid.IntegralIsErrorSum | Week2_Sensors_software/Motorsim_PID.py:47 | after k+1 ticks the integral is the plain sum of the k+1 errors, with no `dt` |
| MotorsimPid.DerivativeChain | Week2_Sensors_software/Motorsim_PID.py:48-53 | the derivative is the error minus the previous error (minus 0 on the first tick); `prev_error` becomes the error |
| MotorsimPid.ControlLaw | Week2_Sensors_software/Motorsim_PID.py:46-51 | the control is `kp*error + ki*(sum of errors) + kd*derivative` with no saturation, and the motor lags toward it |
| MotorsimPid.ScriptFirstTick | Week2_Sensors_software/Motorsim_PID.py:39-51 | with the script's settings the first tick has error, integral and derivative 120, control 90, and leaves the motor at 9 RPM |
| Transform2D.ApplyTransform | Week1_Math/4_matrix_composition.py:3-6 | the matrix-vector product; stated by `ColumnView`, `Linearity` and `Composition` |
| Transform2D.MultiplyMatrices | Week1_Math/4_matrix_composition.py:8-18 | the matrix product; stated by `ProductColumns` and `Composition` |
| Transform2D.InverseRotation | Week1_Math/5_inverse_matrices.py:20-24 | the rows of the result are the columns of the argument (the transpose) |
| Transform2D.Rotation | Week1_Math/5_inverse_matrices.py:10-13 | the rotation matrix `((c, -s), (s, c))` built from the cosine and sine; stated by `RotationTranspose`, `RotationOrthonormal` and `Recovery` |
| Transform2D.ColumnView | Week1_Math/3_linear_transformations.py:2-5 | the image of `(x, y)` is x times the first column plus y times the second; the basis vectors go to the columns |
| Transform2D.ProductColumns | Week1_Math/4_matrix_composition.py:8-18 | each column of `A·B` is A applied to that column of B |
| Transform2D.Composition | Week1_Math/4_matrix_composition.py:34-38 | applying `A·B` is applying B, then A |
| Transform2D.Linearity | Week1_Math/3_linear_transformations.py:2-5 | `apply_transform` preserves sums and scalar multiples |
| Transform2D.TransposeInvolution | Week1_Math/5_inverse_matrices.py:20-24 | applying `inverse_rotation` twice returns the original matrix |
| Transform2D.RotationTranspose | Week1_Math/5_inverse_matrices.py:10-24 | the transpose of the rotation `(c, s)` is the rotation `(c, -s)` |
| Transform2D.RotationOrthonormal | Week1_Math/5_inverse_matrices.py:20-26 | for `c*c + s*s = 1` the transpose times the rotation, in either order, is the identity |
| Transform2D.Recovery | Week1_Math/5_inverse_matrices.py:26-29 | for `c*c + s*s = 1`, applying `inverse_rotation(R)` after `R` gives the point back |
| Transform2D.ScaleExample | Week1_Math/3_linear_transformations.py:7-14 | the scale matrix doubles x and keeps y; `(1, 1)` goes to `(2, 1)` |
| Transform2D.QuarterTurnExample | Week1_Math/3_linear_transformations.py:17-25 | the exact quarter turn sends `(x, y)` to `(-y, x)`, so `(1, 0)` goes to `(0, 1)` |
| Transform2D.OrderMatters | Week1_Math/4_matrix_composition.py:20-38 | `scale·rotation` sends `(1, 1)` to `(-2, 1)`, `rotation·scale` sends it to `(-1, 2)`, and the two products differ |

## Left out

- The Gaussian noise of `Encoder.read` (`random.gauss`) is not modelled as randomness. Each tick's noise sample is an input of the loop instead: the `noise` sequence of `FiFoBuffer.Run` and `NoiseFilterPid.Run`.
- `print` and `time.sleep` are left out. They are output and wall-clock pacing, with no effect on the state.
- `math.radians`, `math.cos` and `math.sin` are left out. A rotation is given by its cosine and sine as parameters `c` and `s`, with `c*c + s*s == 1` required wherever an inverse is needed. The scripts' 90° matrices become the exact entries `c = 0`, `s = 1`; in floating point their `cos` is only approximately 0.
- IEEE-754 rounding is left out: floats are exact reals. So the anti-windup test `control == raw_control` means exactly "raw control within `[-100, 100]`", and the float rounding that could make it fail is not modelled.
- `window_size = 0` and `delay_steps = 0` are preconditions (`window_size >= 1` and `delay_steps >= 1`) rather than the Python exceptions they would raise. The first divides by zero in `filter`; the second pops an empty deque in `apply`. So is `dt != 0`, which the derivative divides by.
- Fixed loop counts become parameters of the driver methods: 60 and 50 ticks in the filter scripts, 20, 30 and 40 in the others. The scripts' constants are collected in `SCRIPT` configurations. The module-level setup is otherwise not modelled.
- `Week2_Sensors_software/Differential drive.py` is not part of this model. It holds the differential-drive decomposer, a PID class and a two-wheel orchestrator, which are outside the speed-control core.
- The `5_inverse_matrices.py` example at 45° with the point `(2, 1)` is covered by `Transform2D.Recovery` for every unit `(c, s)` and every point; the particular float values are not reproduced.
- The printed labels of `4_matrix_composition.py` are not modelled (see above).
