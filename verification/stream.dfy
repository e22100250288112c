/** A finite stretch of the event loop: the results of the reads, one
    after another, fed through `Frame.Transition`, with everything the loop
    writes to the virtual device collected in order. The program's loop
    never ends on its own; a run here covers any finite prefix of it, and
    stops early where the program exits. */
module Stream {
  import opened Events
  import opened Curve
  import opened Rounding
  import opened Frame

  /** Whether the loop is still running after the reads, or has stopped. */
  datatype Ending = Running | Halted(reason: Halt)

  /** The state after the reads, the events written, and how the run ended. */
  datatype Trace = Trace(final: State, emitted: seq<InputEvent>, ending: Ending)

  /** The loop over the finite sequence `input` of read results, starting in state `s`. */
  ghost function Run(curve: real -> real, hypot: (real, real) -> real, s: State, input: seq<ReadResult>): Trace
    decreases |input|
  {
    if input == [] then Trace(s, [], Running)
    else
      match Transition(curve, hypot, s, input[0])
      case Stop(h, last) => Trace(last, [], Halted(h))
      case Continue(next, out) =>
        var t := Run(curve, hypot, next, input[1..]);
        t.(emitted := out + t.emitted)
  }

  /** The loop writes at most three events per read. */
  lemma {:induction false} RunEmitsAtMostThreePerRead(curve: real -> real, hypot: (real, real) -> real, s: State, input: seq<ReadResult>)
    ensures |Run(curve, hypot, s, input).emitted| <= 3 * |input|
    decreases |input|
  {
    if input != [] {
      match Transition(curve, hypot, s, input[0])
      case Stop(_, _) =>
      case Continue(next, _) =>
        RunEmitsAtMostThreePerRead(curve, hypot, next, input[1..]);
    }
  }

  /** Reads handed over in two batches give the same result as in one: the
      second batch starts from where the first left off, unless the first
      already stopped the loop. */
  lemma {:induction false} RunSplit(curve: real -> real, hypot: (real, real) -> real, s: State,
                                    a: seq<ReadResult>, b: seq<ReadResult>)
    ensures var ta := Run(curve, hypot, s, a);
            Run(curve, hypot, s, a + b)
            == if ta.ending.Halted? then ta
               else var tb := Run(curve, hypot, ta.final, b); tb.(emitted := ta.emitted + tb.emitted)
    decreases |a|
  {
    if a == [] {
      assert a + b == b;
    } else {
      assert (a + b)[0] == a[0];
      assert (a + b)[1..] == a[1..] + b;
      match Transition(curve, hypot, s, a[0])
      case Stop(_, _) =>
      case Continue(next, out) =>
        RunSplit(curve, hypot, next, a[1..], b);
        var ta' := Run(curve, hypot, next, a[1..]);
        if ta'.ending.Running? {
          var tb := Run(curve, hypot, ta'.final, b);
          assert out + (ta'.emitted + tb.emitted) == (out + ta'.emitted) + tb.emitted;
        }
    }
  }

  /** The run stops exactly when some read stops the loop; it then writes
      nothing for that read or any later one. */
  lemma {:induction false} RunHaltsOnlyOnStop(curve: real -> real, hypot: (real, real) -> real, s: State, input: seq<ReadResult>)
    ensures Run(curve, hypot, s, input).ending.Halted?
            <==> exists i :: 0 <= i < |input| && Run(curve, hypot, s, input[..i]).ending.Running?
                             && Transition(curve, hypot, Run(curve, hypot, s, input[..i]).final, input[i]).Stop?
    decreases |input|
  {
    var t := Run(curve, hypot, s, input);
    if input == [] {
    } else {
      assert input[..1] == [input[0]];
      assert Run(curve, hypot, s, input[..0]) == Trace(s, [], Running) by { assert input[..0] == []; }
      match Transition(curve, hypot, s, input[0])
      case Stop(_, _) =>
        assert Run(curve, hypot, s, input[..0]).ending.Running?;
      case Continue(next, out) =>
        RunHaltsOnlyOnStop(curve, hypot, next, input[1..]);
        forall i | 0 <= i < |input[1..]|
          ensures Run(curve, hypot, s, input[..i + 1]).ending == Run(curve, hypot, next, input[1..][..i]).ending
          ensures Run(curve, hypot, s, input[..i + 1]).final == Run(curve, hypot, next, input[1..][..i]).final
        {
          RunPrefixAfterFirst(curve, hypot, s, input, i);
        }
        if t.ending.Halted? {
          var j :| 0 <= j < |input[1..]| && Run(curve, hypot, next, input[1..][..j]).ending.Running?
                   && Transition(curve, hypot, Run(curve, hypot, next, input[1..][..j]).final, input[1..][j]).Stop?;
          assert input[j + 1] == input[1..][j];
        } else {
          forall i | 0 <= i < |input| && Run(curve, hypot, s, input[..i]).ending.Running?
            ensures Transition(curve, hypot, Run(curve, hypot, s, input[..i]).final, input[i]).Continue?
          {
            if i > 0 {
              assert input[1..][i - 1] == input[i];
            }
          }
        }
    }
  }

  /** A prefix of `i + 1` reads whose first read continues runs as the
      first `i` of the remaining reads from the state after it. */
  lemma RunPrefixAfterFirst(curve: real -> real, hypot: (real, real) -> real, s: State, input: seq<ReadResult>, i: nat)
    requires i < |input| - 1 && Transition(curve, hypot, s, input[0]).Continue?
    ensures var next := Transition(curve, hypot, s, input[0]).next;
            Run(curve, hypot, s, input[..i + 1]).ending == Run(curve, hypot, next, input[1..][..i]).ending
            && Run(curve, hypot, s, input[..i + 1]).final == Run(curve, hypot, next, input[1..][..i]).final
  {
    assert input[..i + 1][0] == input[0];
    assert input[..i + 1][1..] == input[1..][..i];
  }

  /** Every read of the run fits: no terminator on the way saturates. */
  ghost predicate RunFits(curve: real -> real, hypot: (real, real) -> real, s: State, input: seq<ReadResult>)
    decreases |input|
  {
    input == [] ||
    (FrameFits(curve, hypot, s, input[0]) &&
     match Transition(curve, hypot, s, input[0])
     case Stop(_, _) => true
     case Continue(next, _) => RunFits(curve, hypot, next, input[1..]))
  }

  /** The carries stay within 1/2 for the whole run, from the initial state
      on, as long as no emitted value saturates. */
  lemma {:induction false} RunKeepsCarriesBounded(curve: real -> real, hypot: (real, real) -> real, s: State, input: seq<ReadResult>)
    requires CarriesBounded(s) && RunFits(curve, hypot, s, input)
    ensures CarriesBounded(Run(curve, hypot, s, input).final)
    decreases |input|
  {
    if input != [] {
      StepKeepsCarriesBounded(curve, hypot, s, input[0]);
      match Transition(curve, hypot, s, input[0])
      case Stop(_, _) =>
      case Continue(next, _) =>
        RunKeepsCarriesBounded(curve, hypot, next, input[1..]);
    }
  }

  predicate IsSyncRead(r: ReadResult) {
    r.Read? && r.status == Sync
  }

  /** Reads made while the device resynchronises leave no trace: a burst of
      them followed by a normal read has the same effect as that normal read
      alone, whatever they carried. */
  lemma {:induction false} SyncReadsTransparent(curve: real -> real, hypot: (real, real) -> real, s: State,
                                                syncs: seq<ReadResult>, rest: seq<ReadResult>)
    requires forall i :: 0 <= i < |syncs| ==> IsSyncRead(syncs[i])
    requires rest != [] && IsNormal(rest[0])
    ensures Run(curve, hypot, s, syncs + rest) == Run(curve, hypot, s, rest)
    decreases |syncs|
  {
    if syncs == [] {
      assert syncs + rest == rest;
    } else {
      assert (syncs + rest)[0] == syncs[0];
      assert (syncs + rest)[1..] == syncs[1..] + rest;
      var s' := s.(syncFlag := SyncFlag);
      assert Transition(curve, hypot, s, syncs[0]) == Continue(s', []);
      SyncReadsTransparent(curve, hypot, s', syncs[1..], rest);
      NormalReadIgnoresMode(curve, hypot, s, SyncFlag, rest[0]);
      assert [] + Run(curve, hypot, s', rest).emitted == Run(curve, hypot, s', rest).emitted;
    }
  }

  /** The output is a succession of units, each either one passed-through
      event or a frame: an X move, a Y move and the terminator, all three
      with the terminator's timestamp. */
  predicate Framed(out: seq<InputEvent>)
    decreases |out|
  {
    if out == [] then true
    else if out[0].code.OtherCode? then Framed(out[1..])
    else StartsWithFrame(out) && Framed(out[3..])
  }

  /** `out` starts with an X move, a Y move and a terminator, all three with
      the same timestamp. */
  predicate StartsWithFrame(out: seq<InputEvent>) {
    |out| >= 3 && out[0].code == RelX && out[1].code == RelY && out[2].code == SynReport
    && out[0].time == out[2].time && out[1].time == out[2].time
  }

  lemma {:induction false} FramedConcat(a: seq<InputEvent>, b: seq<InputEvent>)
    requires Framed(a) && Framed(b)
    ensures Framed(a + b)
    decreases |a|
  {
    var c := a + b;
    if a == [] {
      assert c == b;
    } else if a[0].code.OtherCode? {
      assert c[0] == a[0];
      assert c[1..] == a[1..] + b;
      FramedConcat(a[1..], b);
    } else {
      assert c[0] == a[0] && c[1] == a[1] && c[2] == a[2];
      assert StartsWithFrame(c);
      assert c[3..] == a[3..] + b;
      FramedConcat(a[3..], b);
    }
  }

  /** Whatever is read, the output is made of whole units: a motion event
      is only ever written as part of a complete frame. */
  lemma {:induction false} RunFramed(curve: real -> real, hypot: (real, real) -> real, s: State, input: seq<ReadResult>)
    ensures Framed(Run(curve, hypot, s, input).emitted)
    decreases |input|
  {
    if input != [] {
      match Transition(curve, hypot, s, input[0])
      case Stop(_, _) =>
      case Continue(next, out) =>
        RunFramed(curve, hypot, next, input[1..]);
        var r := input[0];
        if IsNormal(r) && r.event.code == SynReport {
          var k := Sensitivity(curve, hypot, s.x, s.y, ChangeMs(s, r.event.time));
          EmitFrameShape(Scale(s.x, k), Scale(s.y, k), r.event);
          assert out[3..] == [];
        } else if IsNormal(r) && r.event.code.OtherCode? {
          assert out[1..] == [];
        }
        FramedConcat(out, Run(curve, hypot, next, input[1..]).emitted);
    }
  }

  /** The output without its X and Y moves. */
  function Strip(out: seq<InputEvent>): (r: seq<InputEvent>)
    ensures forall i :: 0 <= i < |r| ==> r[i].code != RelX && r[i].code != RelY
    decreases |out|
  {
    if out == [] then []
    else if out[0].code == RelX || out[0].code == RelY then Strip(out[1..])
    else [out[0]] + Strip(out[1..])
  }

  lemma {:induction false} StripConcat(a: seq<InputEvent>, b: seq<InputEvent>)
    ensures Strip(a + b) == Strip(a) + Strip(b)
    decreases |a|
  {
    if a == [] {
      assert a + b == b;
    } else {
      assert (a + b)[0] == a[0];
      assert (a + b)[1..] == a[1..] + b;
      StripConcat(a[1..], b);
    }
  }

  /** The events of the input that the loop writes out itself: every event
      of a normal read other than an X or Y move, in order. */
  function Forwarded(input: seq<ReadResult>): (r: seq<InputEvent>)
    ensures forall i :: 0 <= i < |r| ==> r[i].code != RelX && r[i].code != RelY
    decreases |input|
  {
    if input == [] then []
    else if IsNormal(input[0]) && input[0].event.code != RelX && input[0].event.code != RelY
    then [input[0].event] + Forwarded(input[1..])
    else Forwarded(input[1..])
  }

  /** One read that does not stop the loop writes out its own event, unless
      it is an X or Y move or came in while resynchronising; everything
      else it writes is an X or Y move. */
  lemma StepForwards(curve: real -> real, hypot: (real, real) -> real, s: State, r: ReadResult)
    requires Transition(curve, hypot, s, r).Continue?
    ensures Strip(Transition(curve, hypot, s, r).emitted) == Forwarded([r])
  {
    var out := Transition(curve, hypot, s, r).emitted;
    assert [r][1..] == [];
    if IsNormal(r) && r.event.code == SynReport {
      TerminatorEndsFrame(curve, hypot, s, r.event);
      var k := Sensitivity(curve, hypot, s.x, s.y, ChangeMs(s, r.event.time));
      EmitFrameShape(Scale(s.x, k), Scale(s.y, k), r.event);
      var last := out[2..];
      assert last == [r.event] && last[1..] == [];
      assert Strip(last) == [r.event];
      assert out[1..][1..] == last;
      assert Strip(out) == Strip(out[1..]) == Strip(last);
    } else if IsNormal(r) && r.event.code.OtherCode? {
      PassThrough(curve, hypot, s, r.event);
      assert out[1..] == [];
    } else if IsNormal(r) {
      AxisEventOverwrites(curve, hypot, s, r.event);
    } else if r.Read? {
      SyncReadSwallowed(curve, hypot, s, r.event);
    }
  }

  lemma {:induction false} ForwardedConcat(a: seq<ReadResult>, b: seq<ReadResult>)
    ensures Forwarded(a + b) == Forwarded(a) + Forwarded(b)
    decreases |a|
  {
    if a == [] {
      assert a + b == b;
    } else {
      assert (a + b)[0] == a[0];
      assert (a + b)[1..] == a[1..] + b;
      ForwardedConcat(a[1..], b);
    }
  }

  /** A run that does not stop writes out every passed-through event and
      every terminator it read, once each, unchanged and in the order read;
      everything else it writes is an X or Y move. */
  lemma {:induction false} RunForwards(curve: real -> real, hypot: (real, real) -> real, s: State, input: seq<ReadResult>)
    requires Run(curve, hypot, s, input).ending.Running?
    ensures Strip(Run(curve, hypot, s, input).emitted) == Forwarded(input)
    decreases |input|
  {
    if input != [] {
      match Transition(curve, hypot, s, input[0])
      case Stop(_, _) =>
      case Continue(next, out) =>
        RunForwards(curve, hypot, next, input[1..]);
        StripConcat(out, Run(curve, hypot, next, input[1..]).emitted);
        StepForwards(curve, hypot, s, input[0]);
        assert input == [input[0]] + input[1..];
        ForwardedConcat([input[0]], input[1..]);
    }
  }

  /** A frame worked through: 10 counts of X motion and none of Y, a
      terminator 16 ms after the last one, curve with multiplier 1, slope
      0.01, no cap and offset 0. The speed is 10/16 = 0.625, the scale
      1.00625, the scaled X 10.0625; the loop writes X 10, Y 0 and the
      terminator, and keeps 0.0625 as the X carry. */
  lemma WorkedFrame(hypot: (real, real) -> real)
    requires hypot(10.0, 0.0) == 10.0
    ensures var t0 := TimeVal(5, 0);
            var t1 := TimeVal(5, 16000);
            var syn := InputEvent(t1, SynReport, 0);
            var input := [Read(Success, InputEvent(t0, RelX, 10)), Read(Success, syn)];
            var t := Run(CurveOf(Params(1.0, 0.01, Infinite, 0.0)), hypot,
                         State(0.0, 0.0, 0.0, 0.0, 5, 0, NormalFlag), input);
            t.ending == Running
            && t.emitted == [InputEvent(t1, RelX, 10), InputEvent(t1, RelY, 0), syn]
            && t.final == State(0.0, 0.0, 0.0625, 0.0, 5, 16000, NormalFlag)
  {
    var curve := CurveOf(Params(1.0, 0.01, Infinite, 0.0));
    var t0, t1 := TimeVal(5, 0), TimeVal(5, 16000);
    var syn := InputEvent(t1, SynReport, 0);
    var input := [Read(Success, InputEvent(t0, RelX, 10)), Read(Success, syn)];
    var s0 := State(0.0, 0.0, 0.0, 0.0, 5, 0, NormalFlag);
    var s1 := State(10.0, 0.0, 0.0, 0.0, 5, 0, NormalFlag);
    var s2 := State(0.0, 0.0, 0.0625, 0.0, 5, 16000, NormalFlag);
    var out := [InputEvent(t1, RelX, 10), InputEvent(t1, RelY, 0), syn];
    assert Transition(curve, hypot, s0, input[0]) == Continue(s1, []);
    assert ChangeMs(s1, t1) == 16.0;
    assert curve(10.0 / 16.0) == 1.00625;
    assert Sensitivity(curve, hypot, 10.0, 0.0, 16.0) == 1.00625;
    assert Round(10.0625) == 10 && Round(0.0) == 0;
    assert EmitFrame(10.0 * 1.00625, 0.0 * 1.00625, syn) == Continue(s2, out);
    assert Transition(curve, hypot, s1, input[1]) == Continue(s2, out);
    assert input[1..][1..] == [];
    assert Run(curve, hypot, s1, input[1..]) == Trace(s2, out, Running);
  }
}
