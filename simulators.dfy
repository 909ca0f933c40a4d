/**
 * The three frame simulators (`process_images`): for each cycle they send a Start, then one
 * raw frame Event per frame, then a Stop carrying the number of frames, and pause. They differ
 * only in their frame constants, in whether the Start names a run, and in whether they sleep
 * between frames. What they do over time is a trace of sends and sleeps; the socket, msgpack
 * and the pixel values are not modelled.
 */
module Simulators {
  import opened Wrappers
  import opened Messages

  /** `arroyosas` frame listener simulator, `arroyogisaxs` frame listener simulator and
      `arroyogisaxs` tiled poller simulator. */
  datatype Simulator = SasFrameListener | GisaxsFrameListener | GisaxsTiledPoller

  /** One step of a simulator: a message sent on the socket, or an `asyncio.sleep`. */
  datatype Action = Send(msg: Msg) | Sleep(seconds: real)

  /** `FRAME_WIDTH`. */
  function FrameWidth(sim: Simulator): nat
  {
    match sim
    case SasFrameListener => 475
    case GisaxsFrameListener => 1475
    case GisaxsTiledPoller => 100
  }

  /** `FRAME_HEIGHT`. */
  function FrameHeight(sim: Simulator): nat
  {
    match sim
    case SasFrameListener => 619
    case GisaxsFrameListener => 619
    case GisaxsTiledPoller => 100
  }

  /** `DATA_TYPE`. */
  function DataType(sim: Simulator): string
  {
    match sim
    case SasFrameListener => "uint8"
    case GisaxsFrameListener => "float32"
    case GisaxsTiledPoller => "float32"
  }

  /** The default of the `frames` option; `cycles` defaults to 10000 and `pause` to 5 in all
      three. */
  function DefaultFrames(sim: Simulator): nat
  {
    match sim
    case SasFrameListener => 50
    case GisaxsFrameListener => 50
    case GisaxsTiledPoller => 5
  }

  const DefaultCycles: nat := 10000
  const DefaultPause: real := 5.0

  /** The sleep after each frame event: only the `arroyosas` simulator has one. */
  function FrameDelay(sim: Simulator): Option<real>
  {
    if sim == SasFrameListener then Some(0.5) else None
  }

  /** The Start of a cycle; `now` is the clock formatted as "%Y-%m-%d %H:%M:%S". The poller's
      `GISAXSRawStart` carries no run name or run id. */
  function StartMessage(sim: Simulator, now: string): Msg
  {
    if sim == GisaxsTiledPoller then
      Start(FrameWidth(sim), FrameHeight(sim), DataType(sim), Some("tbd://run_url"), None, None)
    else
      Start(FrameWidth(sim), FrameHeight(sim), DataType(sim), Some("tbd://run_url"), Some("test_run"), Some(now))
  }

  /** The Event for frame `frame` of cycle `cycle`: an array of shape
      (FRAME_WIDTH, FRAME_HEIGHT) of the simulator's data type. */
  function FrameEvent(sim: Simulator, cycle: nat, frame: nat): Msg
  {
    Event(frame, Some(Image([FrameWidth(sim), FrameHeight(sim)], DataType(sim), Generated(cycle, frame))), Some("tb://frame_url"))
  }

  function DelayActions(sim: Simulator): seq<Action>
  {
    match FrameDelay(sim)
    case None => []
    case Some(d) => [Sleep(d)]
  }

  /** The inner loop for the first `k` frames of cycle `cycle`. */
  function FrameActions(sim: Simulator, cycle: nat, k: nat): seq<Action>
  {
    if k == 0 then [] else FrameActions(sim, cycle, k - 1) + [Send(FrameEvent(sim, cycle, k - 1))] + DelayActions(sim)
  }

  /** `range(frames)` is empty when `frames` is negative. */
  function Count(n: int): nat
  {
    if n < 0 then 0 else n
  }

  /** One cycle: Start, the frames, Stop(num_frames = frames), then the pause. */
  function CycleActions(sim: Simulator, cycle: nat, frames: int, pause: real, now: string): seq<Action>
  {
    [Send(StartMessage(sim, now))] + FrameActions(sim, cycle, Count(frames)) + [Send(Stop(frames)), Sleep(pause)]
  }

  /** The first `n` cycles; `clock(c)` is the time read at the start of cycle `c`. */
  function Run(sim: Simulator, n: nat, frames: int, pause: real, clock: nat -> string): seq<Action>
  {
    if n == 0 then [] else Run(sim, n - 1, frames, pause, clock) + CycleActions(sim, n - 1, frames, pause, clock(n - 1))
  }

  /** `process_images(socket, cycles, frames, pause)`: the nested loops over cycles and
      frames. */
  method ProcessImages(sim: Simulator, cycles: int, frames: int, pause: real, clock: nat -> string)
    returns (actions: seq<Action>)
    ensures actions == Run(sim, Count(cycles), frames, pause, clock)
  {
    actions := [];
    var cycleNum := 0;
    while cycleNum < cycles
      invariant 0 <= cycleNum <= Count(cycles)
      invariant actions == Run(sim, cycleNum, frames, pause, clock)
    {
      var currentTime := clock(cycleNum);
      var cycle := [Send(StartMessage(sim, currentTime))];
      var frameActions := SendFrames(sim, cycleNum, frames);
      cycle := cycle + frameActions;
      cycle := cycle + [Send(Stop(frames))];
      cycle := cycle + [Sleep(pause)];
      assert cycle == CycleActions(sim, cycleNum, frames, pause, currentTime);
      actions := actions + cycle;
      cycleNum := cycleNum + 1;
    }
  }

  /** The inner loop of `process_images` over the frames of cycle `cycleNum`. */
  method SendFrames(sim: Simulator, cycleNum: nat, frames: int) returns (actions: seq<Action>)
    ensures actions == FrameActions(sim, cycleNum, Count(frames))
  {
    actions := [];
    var frameNum := 0;
    while frameNum < frames
      invariant 0 <= frameNum <= Count(frames)
      invariant actions == FrameActions(sim, cycleNum, frameNum)
    {
      actions := actions + [Send(FrameEvent(sim, cycleNum, frameNum))];
      if sim == SasFrameListener {
        actions := actions + [Sleep(0.5)];
      }
      frameNum := frameNum + 1;
    }
  }

  /** The messages of a trace, in order. */
  function Sent(acts: seq<Action>): seq<Msg>
  {
    if |acts| == 0 then []
    else Sent(acts[..|acts| - 1]) + if acts[|acts| - 1].Send? then [acts[|acts| - 1].msg] else []
  }

  lemma {:induction false} SentConcat(a: seq<Action>, b: seq<Action>)
    ensures Sent(a + b) == Sent(a) + Sent(b)
    decreases |b|
  {
    if |b| == 0 {
      assert a + b == a;
    } else {
      assert (a + b)[..|a + b| - 1] == a + b[..|b| - 1];
      SentConcat(a, b[..|b| - 1]);
    }
  }

  lemma SentSnoc(a: seq<Action>, x: Action)
    ensures Sent(a + [x]) == Sent(a) + if x.Send? then [x.msg] else []
  {
    assert (a + [x])[..|a|] == a;
  }

  /** The events numbered 0 .. k-1 of cycle `cycle`, in order. */
  function FrameEvents(sim: Simulator, cycle: nat, k: nat): seq<Msg>
  {
    seq(k, i requires 0 <= i => FrameEvent(sim, cycle, i))
  }

  /** One more frame sends one more event (the optional sleep after it sends nothing). */
  lemma FrameStep(sim: Simulator, cycle: nat, k: nat)
    requires k > 0
    ensures Sent(FrameActions(sim, cycle, k)) == Sent(FrameActions(sim, cycle, k - 1)) + [FrameEvent(sim, cycle, k - 1)]
  {
    var pre := FrameActions(sim, cycle, k - 1);
    var ev := Send(FrameEvent(sim, cycle, k - 1));
    SentSnoc(pre, ev);
    match FrameDelay(sim)
    case None =>
      assert FrameActions(sim, cycle, k) == pre + [ev];
    case Some(d) =>
      assert FrameActions(sim, cycle, k) == (pre + [ev]) + [Sleep(d)];
      SentSnoc(pre + [ev], Sleep(d));
  }

  /** The frames of a cycle send its events numbered 0 .. k-1 in order, and nothing else. */
  lemma {:induction false} FrameMessages(sim: Simulator, cycle: nat, k: nat)
    ensures Sent(FrameActions(sim, cycle, k)) == FrameEvents(sim, cycle, k)
  {
    if k > 0 {
      FrameMessages(sim, cycle, k - 1);
      FrameStep(sim, cycle, k);
      assert FrameEvents(sim, cycle, k) == FrameEvents(sim, cycle, k - 1) + [FrameEvent(sim, cycle, k - 1)];
    }
  }

  /** The `j`-th message of a cycle of `frames >= 0` frames. */
  function CycleMessage(sim: Simulator, cycle: nat, frames: nat, now: string, j: nat): Msg
  {
    if j == 0 then StartMessage(sim, now) else if j <= frames then FrameEvent(sim, cycle, j - 1) else Stop(frames)
  }

  /** A cycle sends Start, the frame events and Stop(frames), nothing else. */
  lemma CycleMessages(sim: Simulator, cycle: nat, frames: int, pause: real, now: string)
    ensures Sent(CycleActions(sim, cycle, frames, pause, now))
      == [StartMessage(sim, now)] + Sent(FrameActions(sim, cycle, Count(frames))) + [Stop(frames)]
  {
    var start := [Send(StartMessage(sim, now))];
    var fs := FrameActions(sim, cycle, Count(frames));
    var tail := [Send(Stop(frames)), Sleep(pause)];
    SentConcat(start + fs, tail);
    SentConcat(start, fs);
    assert Sent(start) == [StartMessage(sim, now)] by {
      assert start[..0] == [];
    }
    assert Sent(tail) == [Stop(frames)] by {
      assert tail[..1] == [Send(Stop(frames))];
      assert tail[..1][..0] == [];
    }
  }

  /** A cycle with `frames >= 0` sends `frames + 2` messages: CycleMessage 0 .. frames+1. */
  lemma CycleMessagesAt(sim: Simulator, cycle: nat, frames: nat, pause: real, now: string)
    ensures |Sent(CycleActions(sim, cycle, frames, pause, now))| == frames + 2
    ensures forall j :: 0 <= j < frames + 2 ==>
      Sent(CycleActions(sim, cycle, frames, pause, now))[j] == CycleMessage(sim, cycle, frames, now, j)
  {
    CycleMessages(sim, cycle, frames, pause, now);
    FrameMessages(sim, cycle, frames);
  }

  /** Every cycle with a non-negative frame count is a complete run of the protocol. */
  lemma CycleIsCompleteRun(sim: Simulator, cycle: nat, frames: nat, pause: real, now: string)
    ensures Track(Sent(CycleActions(sim, cycle, frames, pause, now))) == Idle
  {
    CycleMessages(sim, cycle, frames, pause, now);
    FrameMessages(sim, cycle, frames);
    var es := Sent(FrameActions(sim, cycle, frames));
    assert NumberedEvents(es, 0);
    CompleteRunIsClosed(StartMessage(sim, now), es);
  }

  /** A consumer of a simulator's messages sees only complete runs, back to back, exactly when
      the frame count is not negative (or nothing is sent); a negative count sends
      Stop(num_frames = frames) after no events, which breaks the protocol for good. */
  lemma {:induction false} RunFollowsProtocol(sim: Simulator, n: nat, frames: int, pause: real, clock: nat -> string)
    ensures Track(Sent(Run(sim, n, frames, pause, clock))) == Idle <==> n == 0 || frames >= 0
    ensures n > 0 && frames < 0 ==> Track(Sent(Run(sim, n, frames, pause, clock))) == Broken
  {
    if n > 0 {
      RunFollowsProtocol(sim, n - 1, frames, pause, clock);
      var pre := Run(sim, n - 1, frames, pause, clock);
      var cyc := CycleActions(sim, n - 1, frames, pause, clock(n - 1));
      SentConcat(pre, cyc);
      TrackFromConcat(Idle, Sent(pre), Sent(cyc));
      if frames >= 0 {
        CycleIsCompleteRun(sim, n - 1, frames, pause, clock(n - 1));
      } else if n - 1 == 0 {
        NegativeFramesBreak(sim, n - 1, frames, pause, clock(n - 1));
      } else {
        BrokenStaysBroken(Sent(cyc));
      }
    }
  }

  /** A cycle with a negative frame count sends a Start and then Stop(frames): no consumer
      accepts it. */
  lemma NegativeFramesBreak(sim: Simulator, cycle: nat, frames: int, pause: real, now: string)
    requires frames < 0
    ensures TrackFrom(Idle, Sent(CycleActions(sim, cycle, frames, pause, now))) == Broken
  {
    CycleMessages(sim, cycle, frames, pause, now);
    var s0, s1 := StartMessage(sim, now), Stop(frames);
    assert Sent(CycleActions(sim, cycle, frames, pause, now)) == [s0, s1];
    assert [s0, s1][1..] == [s1];
    assert TrackFrom(Open(0), [s1]) == TrackFrom(Broken, [s1][1..]);
  }

  lemma {:induction false} MulMono(a: nat, b: nat, s: nat)
    requires a <= b
    ensures a * s <= b * s
    decreases b - a
  {
    if a < b {
      MulMono(a, b - 1, s);
      assert b * s == (b - 1) * s + s;
    }
  }

  /** With `frames >= 0`, `n` cycles send `n * (frames + 2)` messages, and message `j` of
      cycle `c` sits at position `c * (frames + 2) + j`. */
  lemma {:induction false} RunMessageAt(sim: Simulator, n: nat, frames: nat, pause: real, clock: nat -> string, c: nat, j: nat)
    ensures |Sent(Run(sim, n, frames, pause, clock))| == n * (frames + 2)
    ensures c < n && j < frames + 2 ==>
      c * (frames + 2) + j < n * (frames + 2)
      && Sent(Run(sim, n, frames, pause, clock))[c * (frames + 2) + j] == CycleMessage(sim, c, frames, clock(c), j)
  {
    if n > 0 {
      RunMessageAt(sim, n - 1, frames, pause, clock, c, j);
      var pre := Run(sim, n - 1, frames, pause, clock);
      var cyc := CycleActions(sim, n - 1, frames, pause, clock(n - 1));
      SentConcat(pre, cyc);
      CycleMessagesAt(sim, n - 1, frames, pause, clock(n - 1));
      var w := frames + 2;
      assert (n - 1) * w + w == n * w;
      if c < n - 1 {
        MulMono(c + 1, n - 1, w);
        assert (c + 1) * w == c * w + w;
      }
    }
  }

  /** Every frame event of a cycle carries an image whose shape is the Start's
      (width, height) and whose data type is the Start's. */
  lemma FrameMatchesStart(sim: Simulator, n: nat, frames: nat, pause: real, clock: nat -> string, c: nat, k: nat)
    requires c < n && k < frames
    ensures var ms := Sent(Run(sim, n, frames, pause, clock));
      && |ms| == n * (frames + 2) && c * (frames + 2) + 1 + k < |ms|
      && var start, event := ms[c * (frames + 2)], ms[c * (frames + 2) + 1 + k];
      && start.Start? && event.Event? && event.frameNumber == k && event.image.Some?
      && event.image.value.shape == [start.width, start.height]
      && event.image.value.dtype == start.dataType
  {
    RunMessageAt(sim, n, frames, pause, clock, c, 0);
    RunMessageAt(sim, n, frames, pause, clock, c, 1 + k);
  }

  /** What may precede a sleep: the Stop of a cycle (sleeping `pause`), or a frame event when
      the simulator sleeps between frames (sleeping that delay). */
  predicate SleepFollows(prev: Action, seconds: real, sim: Simulator, pause: real)
  {
    prev.Send? && ((prev.msg.Stop? && seconds == pause) || (prev.msg.Event? && FrameDelay(sim) == Some(seconds)))
  }

  ghost predicate SleepsPlaced(acts: seq<Action>, sim: Simulator, pause: real)
  {
    forall i :: 0 <= i < |acts| && acts[i].Sleep? ==> i > 0 && SleepFollows(acts[i - 1], acts[i].seconds, sim, pause)
  }

  lemma SleepsPlacedConcat(a: seq<Action>, b: seq<Action>, sim: Simulator, pause: real)
    requires SleepsPlaced(a, sim, pause) && SleepsPlaced(b, sim, pause)
    requires |b| > 0 ==> b[0].Send?
    ensures SleepsPlaced(a + b, sim, pause)
  {
    var ab := a + b;
    forall i | 0 <= i < |ab| && ab[i].Sleep?
      ensures i > 0 && SleepFollows(ab[i - 1], ab[i].seconds, sim, pause)
    {
      if i < |a| {
        assert ab[i] == a[i] && ab[i - 1] == a[i - 1];
      } else {
        assert ab[i] == b[i - |a|];
        assert i - |a| > 0;
        assert ab[i - 1] == b[i - |a| - 1];
      }
    }
  }

  lemma {:induction false} FrameSleepsPlaced(sim: Simulator, cycle: nat, k: nat)
    ensures |FrameActions(sim, cycle, k)| > 0 ==> FrameActions(sim, cycle, k)[0].Send?
    ensures forall pause: real :: SleepsPlaced(FrameActions(sim, cycle, k), sim, pause)
  {
    if k > 0 {
      FrameSleepsPlaced(sim, cycle, k - 1);
      var pre := FrameActions(sim, cycle, k - 1);
      var ev := Send(FrameEvent(sim, cycle, k - 1));
      var step := [ev] + DelayActions(sim);
      assert FrameActions(sim, cycle, k) == pre + step;
      forall pause: real
        ensures SleepsPlaced(FrameActions(sim, cycle, k), sim, pause)
      {
        assert SleepsPlaced(step, sim, pause);
        SleepsPlacedConcat(pre, step, sim, pause);
      }
    }
  }

  /** The simulators sleep only right after a Stop (for `pause`) and, in the `arroyosas`
      simulator only, right after each frame event (for half a second): the `arroyogisaxs`
      simulators send a cycle's frames without any delay. */
  lemma {:induction false} RunSleepsPlaced(sim: Simulator, n: nat, frames: int, pause: real, clock: nat -> string)
    ensures SleepsPlaced(Run(sim, n, frames, pause, clock), sim, pause)
    ensures |Run(sim, n, frames, pause, clock)| > 0 ==> Run(sim, n, frames, pause, clock)[0].Send?
  {
    if n > 0 {
      RunSleepsPlaced(sim, n - 1, frames, pause, clock);
      var now := clock(n - 1);
      var fs := FrameActions(sim, n - 1, Count(frames));
      FrameSleepsPlaced(sim, n - 1, Count(frames));
      var start := [Send(StartMessage(sim, now))];
      var tail := [Send(Stop(frames)), Sleep(pause)];
      assert SleepsPlaced(start, sim, pause);
      assert SleepsPlaced(tail, sim, pause);
      SleepsPlacedConcat(start, fs, sim, pause);
      SleepsPlacedConcat(start + fs, tail, sim, pause);
      var cyc := CycleActions(sim, n - 1, frames, pause, now);
      assert cyc == start + fs + tail;
      SleepsPlacedConcat(Run(sim, n - 1, frames, pause, clock), cyc, sim, pause);
    }
  }
}
