/** One iteration of the event loop as a pure transition over the loop's
    state: the pending axis values, the fractional carries, the frame clock
    and the read mode. The transition is parameterised by the sensitivity
    curve `curve` (speed to scale; the program uses `Curve.CurveOf(args)`)
    and by `hypot`, the length `(x * x + y * y).sqrt()` of the pending
    motion. */
module Frame {
  import opened Events
  import opened Curve
  import opened Rounding

  /** The loop-local variables `x`, `y`, `x_accum`, `y_accum`,
      `frame_last_sec`, `frame_last_us` and `sync_flag`. */
  datatype State = State(x: real, y: real, xAccum: real, yAccum: real,
                         frameLastSec: int, frameLastUs: int, syncFlag: ReadFlag)

  /** The values the variables start with: everything zero (so the first
      frame is timed from the epoch) and a normal read mode. */
  const INITIAL: State := State(0.0, 0.0, 0.0, 0.0, 0, 0, NormalFlag)

  /** Why the loop stops: a failed read (the process exits with status 2),
      or a terminator with zero elapsed time, where the speed is a division
      by zero that this real-valued model does not follow. */
  datatype Halt = ReadFailed | ZeroElapsed

  datatype Outcome =
    | Continue(next: State, emitted: seq<InputEvent>)
    | Stop(reason: Halt, last: State)

  /** `change_ms`: milliseconds from the last terminator's time to `t`. */
  function ChangeMs(s: State, t: TimeVal): real {
    (t.sec as real - s.frameLastSec as real) * 1000.0 + (t.usec as real - s.frameLastUs as real) / 1000.0
  }

  /** The scale applied to a frame with pending motion `(x, y)` that lasted
      `changeMs`: the curve at speed `dist / changeMs`, where `dist` is the
      length of the pending motion. */
  function Sensitivity(curve: real -> real, hypot: (real, real) -> real, x: real, y: real, changeMs: real): real
    requires changeMs != 0.0
  {
    curve(hypot(x, y) / changeMs)
  }

  /** `v *= k`: one axis scaled by the sensitivity `k`. */
  function Scale(v: real, k: real): real {
    v * k
  }

  /** A frame terminator that came after `changeMs` milliseconds, with motion
      `(x, y)` pending: scale both axes by the sensitivity and emit them. */
  ghost function EndFrame(curve: real -> real, hypot: (real, real) -> real, x: real, y: real, changeMs: real, ev: InputEvent): Outcome
    requires changeMs != 0.0
  {
    var k := Sensitivity(curve, hypot, x, y, changeMs);
    EmitFrame(Scale(x, k), Scale(y, k), ev)
  }

  /** The second half of a terminator, once the motion is scaled to
      `(sx, sy)`: round and emit both axes and then the terminator itself,
      keep the rounding errors as carries, clear the pending motion and
      restart the frame clock at the terminator's time. */
  ghost function EmitFrame(sx: real, sy: real, ev: InputEvent): Outcome {
    var rx, ry := SaturateI32(Round(sx)), SaturateI32(Round(sy));
    Continue(State(0.0, 0.0, sx - rx as real, sy - ry as real, ev.time.sec, ev.time.usec, NormalFlag),
             [InputEvent(ev.time, RelX, rx), InputEvent(ev.time, RelY, ry), ev])
  }

  /** One read and what the loop does with it. A read writes at most three
      events, and a read that stops the loop writes none. */
  ghost function Transition(curve: real -> real, hypot: (real, real) -> real, s: State, r: ReadResult): (o: Outcome)
    ensures o.Continue? ==> |o.emitted| <= 3
    ensures o.Continue? && 0 < |o.emitted| ==> IsNormal(r) && o.emitted[|o.emitted| - 1] == r.event
  {
    match r
    case ReadError => Stop(ReadFailed, s)
    case Read(Sync, _) => Continue(s.(syncFlag := SyncFlag), [])
    case Read(Success, ev) =>
      match ev.code
      case RelX => Continue(s.(x := ev.value as real + s.xAccum, syncFlag := NormalFlag), [])
      case RelY => Continue(s.(y := ev.value as real + s.yAccum, syncFlag := NormalFlag), [])
      case SynReport =>
        var changeMs := ChangeMs(s, ev.time);
        if changeMs == 0.0 then Stop(ZeroElapsed, s.(syncFlag := NormalFlag))
        else EndFrame(curve, hypot, s.x, s.y, changeMs, ev)
      case OtherCode(_) => Continue(s.(syncFlag := NormalFlag), [ev])
  }

  predicate IsNormal(r: ReadResult) {
    r.Read? && r.status == Success
  }

  predicate CarriesBounded(s: State) {
    -0.5 <= s.xAccum <= 0.5 && -0.5 <= s.yAccum <= 0.5
  }

  /** The read is not a terminator whose emitted values would saturate in the `i32` cast. */
  ghost predicate FrameFits(curve: real -> real, hypot: (real, real) -> real, s: State, r: ReadResult) {
    (IsNormal(r) && r.event.code == SynReport && ChangeMs(s, r.event.time) != 0.0) ==>
      ScaledFits(curve, hypot, s.x, s.y, ChangeMs(s, r.event.time))
  }

  /** Scaling `(x, y)` after `changeMs` gives values that round into `i32`. */
  ghost predicate ScaledFits(curve: real -> real, hypot: (real, real) -> real, x: real, y: real, changeMs: real)
    requires changeMs != 0.0
  {
    FitsI32(Round(Scale(x, Sensitivity(curve, hypot, x, y, changeMs))))
    && FitsI32(Round(Scale(y, Sensitivity(curve, hypot, x, y, changeMs))))
  }

  /** The loop stops exactly on a failed read and on a terminator with zero elapsed time. */
  lemma StopCases(curve: real -> real, hypot: (real, real) -> real, s: State, r: ReadResult)
    ensures Transition(curve, hypot, s, r).Stop? <==>
            (r.ReadError? || (IsNormal(r) && r.event.code == SynReport && ChangeMs(s, r.event.time) == 0.0))
    ensures r.ReadError? ==> Transition(curve, hypot, s, r) == Stop(ReadFailed, s)
  {
  }

  /** A read with sync status is swallowed: nothing is emitted and only the
      read mode changes, to SYNC. */
  lemma SyncReadSwallowed(curve: real -> real, hypot: (real, real) -> real, s: State, ev: InputEvent)
    ensures var o := Transition(curve, hypot, s, Read(Sync, ev));
            o.Continue? && o.emitted == [] && o.next.syncFlag == SyncFlag
            && o.next.(syncFlag := s.syncFlag) == s
  {
  }

  /** A normal read puts the mode back to NORMAL, and what it does otherwise
      does not depend on the mode it was read in. */
  lemma NormalReadIgnoresMode(curve: real -> real, hypot: (real, real) -> real, s: State, f: ReadFlag, r: ReadResult)
    requires IsNormal(r)
    ensures Transition(curve, hypot, s.(syncFlag := f), r) == Transition(curve, hypot, s, r)
    ensures var o := Transition(curve, hypot, s, r);
            (o.Continue? ==> o.next.syncFlag == NormalFlag) && (o.Stop? ==> o.last.syncFlag == NormalFlag)
  {
  }

  /** A REL_X or REL_Y event sets that axis's pending value to the event's
      value plus the axis's carry, whatever was pending before; nothing is
      emitted and nothing else but the mode changes. */
  lemma AxisEventOverwrites(curve: real -> real, hypot: (real, real) -> real, s: State, ev: InputEvent)
    requires ev.code == RelX || ev.code == RelY
    ensures var o := Transition(curve, hypot, s, Read(Success, ev));
            o.Continue? && o.emitted == [] && o.next.syncFlag == NormalFlag
            && (ev.code == RelX ==> o.next.x == ev.value as real + s.xAccum && o.next.y == s.y)
            && (ev.code == RelY ==> o.next.y == ev.value as real + s.yAccum && o.next.x == s.x)
            && o.next.xAccum == s.xAccum && o.next.yAccum == s.yAccum
            && o.next.frameLastSec == s.frameLastSec && o.next.frameLastUs == s.frameLastUs
  {
  }

  /** Two REL_X events in one frame do not add up: the second one's value
      replaces the first one's. */
  lemma SameAxisEventsDoNotSum(curve: real -> real, hypot: (real, real) -> real, s: State, e1: InputEvent, e2: InputEvent)
    requires e1.code == RelX && e2.code == RelX
    ensures var o1 := Transition(curve, hypot, s, Read(Success, e1));
            o1.Continue? &&
            var o2 := Transition(curve, hypot, o1.next, Read(Success, e2));
            o2.Continue? && o2.next.x == e2.value as real + s.xAccum
  {
    AxisEventOverwrites(curve, hypot, s, e1);
    var o1 := Transition(curve, hypot, s, Read(Success, e1));
    AxisEventOverwrites(curve, hypot, o1.next, e2);
  }

  /** Any other event is emitted once, unchanged, and only the mode changes. */
  lemma PassThrough(curve: real -> real, hypot: (real, real) -> real, s: State, ev: InputEvent)
    requires ev.code.OtherCode?
    ensures var o := Transition(curve, hypot, s, Read(Success, ev));
            o.Continue? && o.emitted == [ev] && o.next.syncFlag == NormalFlag
            && o.next.(syncFlag := s.syncFlag) == s
  {
  }

  /** A terminator's outcome depends only on the pending motion and the
      time elapsed since the last terminator: zero elapsed time stops the
      model, anything else ends the frame. */
  lemma TerminatorEndsFrame(curve: real -> real, hypot: (real, real) -> real, s: State, ev: InputEvent)
    requires ev.code == SynReport
    ensures Transition(curve, hypot, s, Read(Success, ev))
            == if ChangeMs(s, ev.time) == 0.0 then Stop(ZeroElapsed, s.(syncFlag := NormalFlag))
               else EndFrame(curve, hypot, s.x, s.y, ChangeMs(s, ev.time), ev)
  {
  }

  /** Ending a frame scales both axes by the same sensitivity before
      rounding them. */
  lemma EndFrameScales(curve: real -> real, hypot: (real, real) -> real, x: real, y: real, changeMs: real, ev: InputEvent)
    requires changeMs != 0.0
    ensures EndFrame(curve, hypot, x, y, changeMs, ev)
            == EmitFrame(Scale(x, Sensitivity(curve, hypot, x, y, changeMs)), Scale(y, Sensitivity(curve, hypot, x, y, changeMs)), ev)
  {
  }

  /** A frame emits exactly three events stamped with the terminator's
      time: the rounded X, the rounded Y (each saturated to `i32`), then the
      terminator itself. Afterwards nothing is pending, the frame clock
      holds the terminator's time and the mode is NORMAL. */
  lemma EmitFrameShape(sx: real, sy: real, ev: InputEvent)
    ensures var o := EmitFrame(sx, sy, ev);
            o.Continue? && |o.emitted| == 3
            && o.emitted[0] == InputEvent(ev.time, RelX, SaturateI32(Round(sx)))
            && o.emitted[1] == InputEvent(ev.time, RelY, SaturateI32(Round(sy)))
            && o.emitted[2] == ev
            && o.next.x == 0.0 && o.next.y == 0.0
            && o.next.frameLastSec == ev.time.sec && o.next.frameLastUs == ev.time.usec
            && o.next.syncFlag == NormalFlag
  {
  }

  /** A frame loses no motion: on each axis the emitted value and the new
      carry add up to the scaled value. */
  lemma EmitFrameConserves(sx: real, sy: real, ev: InputEvent)
    ensures var o := EmitFrame(sx, sy, ev);
            o.Continue? && |o.emitted| == 3
            && o.emitted[0].value as real + o.next.xAccum == sx
            && o.emitted[1].value as real + o.next.yAccum == sy
  {
  }

  /** When the rounded values fit in `i32`, each new carry is the error of
      rounding to a nearest integer: at most 1/2, and no integer lies closer. */
  lemma EmitFrameRoundsToNearest(sx: real, sy: real, ev: InputEvent)
    requires FitsI32(Round(sx)) && FitsI32(Round(sy))
    ensures var o := EmitFrame(sx, sy, ev);
            o.Continue? && CarriesBounded(o.next)
            && NearestError(sx, o.next.xAccum) && NearestError(sy, o.next.yAccum)
  {
    SaturatedCarry(sx);
    SaturatedCarry(sy);
  }

  /** An axis with no event in a frame takes no part in it: whatever the
      scale, nothing moves on that axis and its carry is not re-applied but
      replaced by zero. */
  lemma IdleAxisDropsCarry(curve: real -> real, hypot: (real, real) -> real, x: real, changeMs: real, ev: InputEvent)
    requires changeMs != 0.0
    ensures var o := EndFrame(curve, hypot, x, 0.0, changeMs, ev);
            o.Continue? && o.emitted[1].value == 0 && o.next.yAccum == 0.0
  {
  }

  /** A terminator read after a non-zero time writes three events, all
      stamped with its time: X and Y, each the rounded pending motion scaled
      by the curve at the frame's speed, then the terminator itself. The
      pending motion is cleared and the frame clock restarts at the
      terminator's time. */
  lemma TerminatorEmitsFrame(curve: real -> real, hypot: (real, real) -> real, s: State, ev: InputEvent)
    requires ev.code == SynReport && ChangeMs(s, ev.time) != 0.0
    ensures var o := Transition(curve, hypot, s, Read(Success, ev));
            var k := Sensitivity(curve, hypot, s.x, s.y, ChangeMs(s, ev.time));
            o.Continue? && o.emitted
              == [InputEvent(ev.time, RelX, SaturateI32(Round(Scale(s.x, k)))),
                  InputEvent(ev.time, RelY, SaturateI32(Round(Scale(s.y, k)))),
                  ev]
            && o.next.x == 0.0 && o.next.y == 0.0
            && o.next.frameLastSec == ev.time.sec && o.next.frameLastUs == ev.time.usec
  {
    TerminatorEndsFrame(curve, hypot, s, ev);
    EndFrameScales(curve, hypot, s.x, s.y, ChangeMs(s, ev.time), ev);
  }

  /** A terminator loses no motion: on each axis the value written plus the
      new carry is the scaled pending motion. */
  lemma TerminatorConserves(curve: real -> real, hypot: (real, real) -> real, s: State, ev: InputEvent)
    requires ev.code == SynReport && ChangeMs(s, ev.time) != 0.0
    ensures var o := Transition(curve, hypot, s, Read(Success, ev));
            var k := Sensitivity(curve, hypot, s.x, s.y, ChangeMs(s, ev.time));
            o.Continue? && |o.emitted| == 3
            && o.emitted[0].value as real + o.next.xAccum == Scale(s.x, k)
            && o.emitted[1].value as real + o.next.yAccum == Scale(s.y, k)
  {
    TerminatorEndsFrame(curve, hypot, s, ev);
    EndFrameScales(curve, hypot, s.x, s.y, ChangeMs(s, ev.time), ev);
    var k := Sensitivity(curve, hypot, s.x, s.y, ChangeMs(s, ev.time));
    EmitFrameConserves(Scale(s.x, k), Scale(s.y, k), ev);
  }

  /** The frame does not depend on the carries, the read mode or the clock
      beyond the elapsed time: two states with the same pending motion and
      the same elapsed time end the frame identically. */
  lemma TerminatorIgnoresCarries(curve: real -> real, hypot: (real, real) -> real, s1: State, s2: State, ev: InputEvent)
    requires ev.code == SynReport
    requires s1.x == s2.x && s1.y == s2.y
    requires ChangeMs(s1, ev.time) == ChangeMs(s2, ev.time) != 0.0
    ensures Transition(curve, hypot, s1, Read(Success, ev)) == Transition(curve, hypot, s2, Read(Success, ev))
  {
    TerminatorEndsFrame(curve, hypot, s1, ev);
    TerminatorEndsFrame(curve, hypot, s2, ev);
  }

  /** Ending a frame scales both axes by one sensitivity `k`, the curve at
      the frame's speed: on each axis the value written plus the new carry
      is the pending motion times `k`. */
  lemma EndFrameConserves(curve: real -> real, hypot: (real, real) -> real, x: real, y: real, changeMs: real, ev: InputEvent)
    requires changeMs != 0.0
    ensures var o := EndFrame(curve, hypot, x, y, changeMs, ev);
            var k := curve(hypot(x, y) / changeMs);
            o.Continue? && |o.emitted| == 3
            && o.emitted[0].value as real + o.next.xAccum == x * k
            && o.emitted[1].value as real + o.next.yAccum == y * k
  {
    EndFrameScales(curve, hypot, x, y, changeMs, ev);
    EmitFrameConserves(Scale(x, Sensitivity(curve, hypot, x, y, changeMs)),
                       Scale(y, Sensitivity(curve, hypot, x, y, changeMs)), ev);
  }

  /** A frame whose rounded values fit in `i32` leaves carries within 1/2. */
  lemma EndFrameKeepsCarriesBounded(curve: real -> real, hypot: (real, real) -> real, x: real, y: real, changeMs: real, ev: InputEvent)
    requires changeMs != 0.0
    requires ScaledFits(curve, hypot, x, y, changeMs)
    ensures var o := EndFrame(curve, hypot, x, y, changeMs, ev);
            o.Continue? && CarriesBounded(o.next)
  {
    EndFrameScales(curve, hypot, x, y, changeMs, ev);
    EmitFrameRoundsToNearest(Scale(x, Sensitivity(curve, hypot, x, y, changeMs)),
                             Scale(y, Sensitivity(curve, hypot, x, y, changeMs)), ev);
  }

  /** One step keeps the carries within 1/2 as long as the terminator's
      values fit in `i32`. */
  lemma StepKeepsCarriesBounded(curve: real -> real, hypot: (real, real) -> real, s: State, r: ReadResult)
    requires CarriesBounded(s) && FrameFits(curve, hypot, s, r)
    ensures var o := Transition(curve, hypot, s, r);
            CarriesBounded(if o.Continue? then o.next else o.last)
  {
    match r
    case ReadError =>
    case Read(Sync, _) =>
    case Read(Success, ev) =>
      if ev.code == SynReport && ChangeMs(s, ev.time) != 0.0 {
        TerminatorEndsFrame(curve, hypot, s, ev);
        EndFrameKeepsCarriesBounded(curve, hypot, s.x, s.y, ChangeMs(s, ev.time), ev);
      }
  }

  /** Before the first terminator the frame clock is zero, so the first
      frame's elapsed time is measured from the epoch. */
  lemma FirstFrameFromEpoch(t: TimeVal)
    ensures ChangeMs(INITIAL, t) == t.sec as real * 1000.0 + t.usec as real / 1000.0
  {
  }
}
