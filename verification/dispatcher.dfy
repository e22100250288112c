/** The event loop as the program runs it: the loop-local variables become
    the fields of an `Accelerator`, updated in place one read at a time.
    Each step is proved to do what `Frame.Transition` says, and a batch of
    reads what `Stream.Run` says. */
module Dispatcher {
  import opened Events
  import opened Curve
  import opened Rounding
  import opened Frame
  import Stream

  /** What one iteration did: the events it wrote, or why the loop stopped. */
  datatype StepResult = Emitted(events: seq<InputEvent>) | Stopped(reason: Halt)

  class Accelerator {
    /** The sensitivity curve, fixed by the command line. */
    const curve: real -> real
    /** The length of the pending motion, `(x * x + y * y).sqrt()`. */
    const hypot: (real, real) -> real

    var x: real
    var y: real
    var xAccum: real
    var yAccum: real
    var frameLastSec: int
    var frameLastUs: int
    var syncFlag: ReadFlag

    /** The loop's variables as a value. */
    function Snapshot(): State
      reads this
    {
      State(x, y, xAccum, yAccum, frameLastSec, frameLastUs, syncFlag)
    }

    /** The variables as the program declares them before the loop. */
    constructor(params: Params, hypot: (real, real) -> real)
      ensures this.curve == CurveOf(params) && this.hypot == hypot
      ensures Snapshot() == INITIAL
    {
      this.curve := CurveOf(params);
      this.hypot := hypot;
      x := 0.0;
      y := 0.0;
      xAccum := 0.0;
      yAccum := 0.0;
      frameLastSec := 0;
      frameLastUs := 0;
      syncFlag := NormalFlag;
    }

    /** One iteration of the loop on the result `r` of a read. */
    method Step(r: ReadResult) returns (result: StepResult)
      modifies this
      ensures match Transition(curve, hypot, old(Snapshot()), r)
              case Continue(next, out) => result == Emitted(out) && Snapshot() == next
              case Stop(h, last) => result == Stopped(h) && Snapshot() == last
    {
      ghost var s := Snapshot();
      match r
      case ReadError =>
        result := Stopped(ReadFailed);
      case Read(status, ev) =>
        if status == Sync {
          syncFlag := SyncFlag;
          result := Emitted([]);
          return;
        }
        syncFlag := NormalFlag;
        match ev.code
        case RelX =>
          x := ev.value as real + xAccum;
          result := Emitted([]);
        case RelY =>
          y := ev.value as real + yAccum;
          result := Emitted([]);
        case SynReport =>
          var changeMs := (ev.time.sec as real - frameLastSec as real) * 1000.0
                          + (ev.time.usec as real - frameLastUs as real) / 1000.0;
          assert changeMs == ChangeMs(s, ev.time);
          if changeMs == 0.0 {
            result := Stopped(ZeroElapsed);
            return;
          }
          result := EndFrameStep(ev, changeMs);
          TerminatorEndsFrame(curve, hypot, s, ev);
        case OtherCode(_) =>
          result := Emitted([ev]);
    }

    /** The terminator branch of `Step`, once the elapsed time is known to
        be non-zero: scale the pending motion by the sensitivity, then emit. */
    method EndFrameStep(ev: InputEvent, changeMs: real) returns (result: StepResult)
      requires changeMs != 0.0 && syncFlag == NormalFlag
      modifies this
      ensures var o := EndFrame(curve, hypot, old(x), old(y), changeMs, ev);
              result == Emitted(o.emitted) && Snapshot() == o.next
    {
      ghost var x0, y0 := x, y;
      var sensitivity := Sensitivity(curve, hypot, x, y, changeMs);
      x := Scale(x, sensitivity);
      y := Scale(y, sensitivity);
      EndFrameScales(curve, hypot, x0, y0, changeMs, ev);
      result := EmitStep(ev);
    }

    /** The rest of the terminator branch: round both scaled axes, keep the
        rounding errors as carries, write the two moves and the terminator,
        clear the pending motion and restart the frame clock. */
    method EmitStep(ev: InputEvent) returns (result: StepResult)
      requires syncFlag == NormalFlag
      modifies this
      ensures var o := EmitFrame(old(x), old(y), ev);
              result == Emitted(o.emitted) && Snapshot() == o.next
    {
      var xRounded := RoundToI32(x);
      var yRounded := RoundToI32(y);
      xAccum := x - xRounded as real;
      yAccum := y - yRounded as real;
      result := Emitted([InputEvent(ev.time, RelX, xRounded), InputEvent(ev.time, RelY, yRounded), ev]);
      x := 0.0;
      y := 0.0;
      frameLastSec := ev.time.sec;
      frameLastUs := ev.time.usec;
    }

    /** The loop over a finite batch of reads: it stops at the first read
        that stops the program and otherwise goes through all of them. */
    method Process(input: seq<ReadResult>) returns (emitted: seq<InputEvent>, ending: Stream.Ending)
      modifies this
      ensures var t := Stream.Run(curve, hypot, old(Snapshot()), input);
              emitted == t.emitted && ending == t.ending && Snapshot() == t.final
    {
      ghost var s0 := Snapshot();
      emitted := [];
      ending := Stream.Running;
      var i := 0;
      while i < |input|
        invariant 0 <= i <= |input|
        invariant var t := Stream.Run(curve, hypot, Snapshot(), input[i..]);
                  Stream.Run(curve, hypot, s0, input) == t.(emitted := emitted + t.emitted)
        decreases |input| - i
      {
        ghost var before := Snapshot();
        var result := Step(input[i]);
        assert input[i..][0] == input[i] && input[i..][1..] == input[i + 1..];
        match result
        case Stopped(h) =>
          ending := Stream.Halted(h);
          assert emitted + [] == emitted;
          return;
        case Emitted(out) =>
          var rest := Stream.Run(curve, hypot, Snapshot(), input[i + 1..]);
          assert emitted + (out + rest.emitted) == (emitted + out) + rest.emitted;
          emitted := emitted + out;
          i := i + 1;
      }
      assert input[i..] == [];
      assert emitted + [] == emitted;
    }
  }
}
