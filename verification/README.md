# accelerator — a Dafny model

`accelerator` is a small Linux program that adds pointer acceleration to a
mouse. It grabs an evdev input device, reads its events one at a time and
re-emits them through a virtual (uinput) device. Between two `SYN_REPORT`
terminators it keeps the latest `REL_X` and `REL_Y` values (plus the
fractional carries left over from the previous frame). At each terminator
it measures the frame's speed (length of the motion divided by the
milliseconds since the previous terminator) and scales both axes by
`factor(speed)`. It rounds them to integers, keeps the rounding errors as
the next carries, and writes X, Y and the terminator. Every other event is
forwarded unchanged. `SYN_DROPPED` reads switch the read mode to SYNC and
are swallowed. A failed read ends the process with status 2.

The model has six modules:

- `Curve` — `factor` as a pure function over `real`, with the shape of the
  curve proved: flat below the offset, a linear ramp above it, capped.
- `Rounding` — Rust's `f64::round` (nearest, ties away from zero) as a
  characterising predicate, an executable rounding method proved against it,
  and the saturating `as i32` cast.
- `Events` — the evdev values the loop sees: timestamps, event codes,
  events, read statuses and read modes, and the result of one read.
- `Frame` — one iteration of the loop as a pure transition `Transition`
  over the loop variables, with single-step lemmas.
- `Stream` — a finite stretch of the loop, `Run`, as the fold of
  `Transition` over a sequence of read results, with lemmas about whole
  runs: batching, halting, carry bounds, output framing, forwarding.
- `Dispatcher` — the loop as the program writes it: a class `Accelerator`
  whose fields are the loop-local variables, updated in place by `Step`
  (one read) and `Process` (a batch of reads). Both are proved to do what
  `Transition` and `Run` say, so every lemma about those applies to them.

Floating point is modelled over `real`. The sensitivity curve and the
length of the pending motion enter the loop model as parameters:
`curve: real -> real` (the program's curve is `Curve.CurveOf(params)`) and
`hypot: (real, real) -> real`, standing for `(x * x + y * y).sqrt()`.
No property proved about the loop depends on what the square root
returns, except the worked frame (`Stream.WorkedFrame`), which assumes
that the length of the motion (10, 0) is 10. The device's reads are the input sequence and its writes the
output sequence.

Behaviour of the code worth knowing:

- The carry interval is closed, [-1/2, 1/2]. `round` sends ties away from
  zero, so 2.5 leaves a carry of -1/2 and -2.5 leaves +1/2
  (`Rounding.RoundTieExamples`).
- At the offset itself the factor is `sens_mult * min(1, cap)`, not always
  `sens_mult`. With a cap below 1 the curve drops there
  (`Curve.FactorDropsBelowUnitCap`).
- The frame clock starts at zero, so the first frame's elapsed time is
  measured from the epoch (`Frame.FirstFrameFromEpoch`).
- A terminator with no elapsed time is not guarded in the code.
- An axis with no event in a frame has its pending value zero, and its
  carry is replaced by zero rather than carried on
  (`Frame.IdleAxisDropsCarry`).

## Model

| member | source | states |
|---|---|---|
| Curve.MulAdd | src/main.rs:13 | `accel.mul_add(speed - offset, 1.0)`: the product plus the addend, exact over the reals |
| Curve.Factor | src/main.rs:9-15 | `factor`: the multiplier below the offset, otherwise the multiplier times the ramp clamped at the cap; its shape is stated by the lemmas below |
| Curve.MinCap | src/main.rs:13 | `f64::min` with the cap: the result is at most the value and at most a finite cap, and is one of the two; an infinite cap is never chosen |
| Curve.FactorFlat | src/main.rs:10-11 | below the offset the factor is the multiplier |
| Curve.FactorRamp | src/main.rs:12-14 | at or above the offset the factor is the multiplier times the ramp `1 + accel * (speed - offset)`, or times the cap once the ramp exceeds it |
| Curve.FactorAtOffset | src/main.rs:9-15 | at the offset the factor is `sens_mult * min(1, cap)`; with no cap or a cap of at least 1 it is the multiplier |
| Curve.FactorDropsBelowUnitCap | src/main.rs:9-15 | with a positive multiplier and a cap below 1, every slower speed gets a strictly larger factor than the offset does |
| Curve.FactorMonotone | src/main.rs:12-14 | with non-negative multiplier and slope the factor is non-decreasing in speed on the ramp |
| Curve.FactorMonotoneEverywhere | src/main.rs:9-15 | with non-negative multiplier and slope and a cap of at least 1 (or none), the factor is non-decreasing over all speeds |
| Curve.FactorCapped | src/main.rs:13 | on the ramp the factor never exceeds `sens_mult * cap` |
| Curve.FactorReachesCap | src/main.rs:13 | with a positive slope, every speed at least `offset + (cap - 1) / accel` gets exactly `sens_mult * cap` |
| Curve.FactorExamples | src/main.rs:9-15 | worked values of the curve below the offset, at the offset, on the ramp and at the cap |
| Rounding.Round | src/main.rs:104-105 | `v.round()`: the integer within 1/2 of `v`, halfway cases away from zero |
| Rounding.RoundToI32 | src/main.rs:104-105 | the executable rounding (floor of `v + 1/2`, mirrored for negatives) followed by the cast equals the saturated nearest-ties-away integer |
| Rounding.SaturateI32 | src/main.rs:104-105 | `as i32` on an integral value: always in `i32` range, unchanged when it fits, clamped to the nearer bound otherwise |
| Rounding.RoundError | src/main.rs:104-107 | the rounding error `v - round(v)` lies in [-1/2, 1/2] |
| Rounding.RoundNearest | src/main.rs:104-107 | no integer is closer to `v` than `round(v)` |
| Rounding.SaturatedCarry | src/main.rs:104-107 | when the rounded value fits in `i32`, the carry `v - (v.round() as i32)` is within 1/2 and is the error to a nearest integer |
| Rounding.RoundTiesAway | src/main.rs:104 | an error of exactly +1/2 only occurs for negative `v`, of exactly -1/2 only for positive `v` |
| Rounding.RoundOdd | src/main.rs:104 | rounding commutes with negation |
| Rounding.RoundIntegral | src/main.rs:104 | integral values are left unchanged |
| Rounding.RoundTieExamples | src/main.rs:104-107 | 2.5 rounds to 3 leaving -1/2, -2.5 rounds to -3 leaving +1/2: both ends of the carry interval occur |
| Frame.State | src/main.rs:67-73 | the loop variables: pending X and Y, the two carries, the frame clock in seconds and microseconds, and the read mode |
| Frame.INITIAL | src/main.rs:67-73 | their values before the loop: all zero, read mode NORMAL |
| Frame.ChangeMs | src/main.rs:91-92 | `change_ms`: milliseconds from the frame clock to the terminator's time |
| Frame.Sensitivity | src/main.rs:93-100 | the curve at speed `dist / change_ms`, where `dist` is the length of the pending motion |
| Frame.Scale | src/main.rs:101-102 | `x *= sensitivity` on one axis |
| Frame.EndFrame | src/main.rs:91-125 | the terminator branch after a non-zero elapsed time: scale both axes by one sensitivity, then emit |
| Frame.EmitFrame | src/main.rs:104-125 | round and cast both scaled axes, keep the errors as carries, write X, Y and the terminator, clear the motion and restart the clock |
| Frame.Transition | src/main.rs:75-134 | one iteration: a failed read stops, a sync read only sets the mode, an axis event sets its axis, a terminator ends the frame (or stops on zero elapsed time), anything else is passed through; it writes at most three events, the last of which is the read's own event |
| Frame.StopCases | src/main.rs:90-134 | a step stops exactly on a failed read (state unchanged) or on a terminator with zero elapsed time |
| Frame.SyncReadSwallowed | src/main.rs:78-82 | a read with sync status emits nothing and only sets the read mode to SYNC |
| Frame.NormalReadIgnoresMode | src/main.rs:83-85 | a normal read sets the mode back to NORMAL, and its effect does not depend on the mode it was read in |
| Frame.AxisEventOverwrites | src/main.rs:88-89 | `REL_X`/`REL_Y` sets that axis to the event's value plus its carry, whatever was pending; nothing is emitted and the carries, the other axis and the clock are unchanged |
| Frame.SameAxisEventsDoNotSum | src/main.rs:88 | of two `REL_X` events in one frame only the second counts |
| Frame.PassThrough | src/main.rs:127 | any other event is written once, unchanged, and only the mode changes |
| Frame.TerminatorIgnoresCarries | src/main.rs:90-125 | a terminator's outcome depends only on the pending motion and the elapsed time: two states that agree on those end the frame identically, whatever their carries and read modes |
| Frame.EndFrameConserves | src/main.rs:93-107 | with `k` the curve at `dist / change_ms`, the value written plus the new carry is `x * k` on X and `y * k` on Y |
| Frame.EmitFrameShape | src/main.rs:109-125 | a frame writes exactly X, Y and the terminator, X and Y stamped with the terminator's time and saturated to `i32`; afterwards nothing is pending and the clock holds the terminator's time |
| Frame.EmitFrameConserves | src/main.rs:104-107 | on each axis the emitted value plus the new carry equals the scaled value |
| Frame.EmitFrameRoundsToNearest | src/main.rs:104-107 | without saturation each new carry is within 1/2 and is the error to a nearest integer |
| Frame.IdleAxisDropsCarry | src/main.rs:101-107 | an axis with nothing pending emits 0 and its carry becomes 0, whatever the carry was |
| Frame.TerminatorEmitsFrame | src/main.rs:90-125 | a terminator after non-zero time writes the rounded, scaled X and Y and then itself, all with its timestamp, clears the pending motion and restarts the clock |
| Frame.TerminatorConserves | src/main.rs:101-107 | a terminator loses no motion: emitted value plus new carry is the scaled pending motion on each axis |
| Frame.EndFrameKeepsCarriesBounded | src/main.rs:101-107 | a frame whose values fit in `i32` leaves both carries within 1/2 |
| Frame.StepKeepsCarriesBounded | src/main.rs:74-136 | every step preserves carries within 1/2, as long as a terminator's values fit in `i32` |
| Frame.FirstFrameFromEpoch | src/main.rs:71-72 | from the initial state the first frame's elapsed time is measured from time zero |
| Stream.Run | src/main.rs:74-136 | the loop over a finite sequence of reads: each read's transition in turn, collecting what is written, stopping at the first read that stops the loop |
| Stream.RunEmitsAtMostThreePerRead | src/main.rs:74-136 | a run writes at most three events per read |
| Stream.RunSplit | src/main.rs:74-136 | reading in two batches equals reading in one: the second starts where the first ended, unless the first stopped |
| Stream.RunHaltsOnlyOnStop | src/main.rs:131-134 | a run stops if and only if some read, reached while still running, stops the step |
| Stream.RunKeepsCarriesBounded | src/main.rs:74-136 | over a whole run the carries stay within 1/2 unless some frame saturates |
| Stream.SyncReadsTransparent | src/main.rs:78-85 | a burst of sync reads followed by a normal read has the same effect as the normal read alone |
| Stream.RunFramed | src/main.rs:109-127 | every output is a succession of passed-through events and whole frames (X, Y, terminator with one timestamp) |
| Stream.StepForwards | src/main.rs:120 | one non-stopping read writes its own event unless it is an axis move or a sync read; everything else it writes is an axis move |
| Stream.RunForwards | src/main.rs:127 | a run that does not stop writes out every non-axis event it read, once each, unchanged and in order, and nothing else but axis moves |
| Stream.WorkedFrame | src/main.rs:91-125 | 10 counts of X over 16 ms with multiplier 1 and slope 0.01 write X 10, Y 0 and the terminator, and keep 0.0625 as the X carry |
| Dispatcher.Accelerator.constructor | src/main.rs:67-73 | the loop starts with nothing pending, zero carries, the clock at zero and a normal read mode |
| Dispatcher.Accelerator.Step | src/main.rs:75-128 | one iteration updates the fields in place and reports exactly what `Frame.Transition` says: the events written, or why the loop stops |
| Dispatcher.Accelerator.EndFrameStep | src/main.rs:91-102 | the terminator branch after a non-zero elapsed time scales both axes by the curve at the frame's speed and emits as `Frame.EndFrame` says |
| Dispatcher.Accelerator.EmitStep | src/main.rs:104-125 | rounds and casts both axes, keeps the errors as carries, writes X, Y and the terminator, clears the motion and restarts the clock |
| Dispatcher.Accelerator.Process | src/main.rs:74-136 | the loop over a batch of reads writes, ends and leaves the fields exactly as `Stream.Run` says |

## Left out

- Argument parsing (`parse_args`, src/main.rs:25-60, and the help text): the curve parameters are an input `Curve.Params`; the default cap of infinity is `Curve.Infinite`.
- Opening and grabbing the device and creating the virtual one (src/main.rs:62-65) are I/O. So is the `?` on each `write_event`: a failed write is not modelled, and every write succeeds.
- The warnings printed to standard error are not modelled.
- The read mode passed to `next_event` is kept in the state, but what the device does with it is not: each read's result is an input. The evdev library is not part of this model. If, once the resynchronisation queue is drained, the library reports an error rather than switching back to normal reads, the program exits there (src/main.rs:131-133). In that case the "sync reads, then a normal read" sequence of `Stream.SyncReadsTransparent` does not occur with the real device.
- IEEE 754 behaviour is not modelled: `f64` is `real`, `mul_add`'s single rounding is exact, and there is no NaN or infinity. A terminator with zero elapsed time divides by zero. The program then goes on with an infinite or NaN speed; the model stops with `ZeroElapsed` instead. With a finite cap and a non-negative slope the program's factor there is `sens_mult * cap`, because `f64::min` drops a NaN and an infinite ramp is clamped. So the program writes a frame scaled at the cap, which the model does not.
- With an infinite cap the program computes `0 * inf` on a zero-length frame at infinite speed. This is not modelled, for the same reason.
- The square root is the parameter `hypot`; its numeric value is not modelled.
- The loop never ends on its own. `Stream.Run` and `Dispatcher.Accelerator.Process` cover any finite prefix of reads.
- Timestamps are unbounded integers, not `i64`/`time_t`, and `as f64` on them is exact.
- Frame.StepKeepsCarriesBounded: requires that the terminator's rounded values fit in `i32`. Where the `as i32` cast saturates, the carry can be arbitrarily large.
- Frame.EndFrameKeepsCarriesBounded, Frame.EmitFrameRoundsToNearest, Rounding.SaturatedCarry and Stream.RunKeepsCarriesBounded: the same `i32` fit requirement, for the same reason.
