/**
 * The lifecycle messages that travel between listeners, operators and publishers
 * (the SAS/GISAXS Start, raw frame Event and Stop records), and the Start, Event*, Stop
 * protocol a consumer of one message stream expects.
 */
module Messages {
  import opened Wrappers

  /** Where the pixels of an image came from; pixel values themselves are not modelled. */
  datatype Origin =
    | CatalogRow(node: string, row: int)  // row `row` of the array node `node`
    | Generated(cycle: nat, frame: nat)   // made up by a simulator
    | Received                            // decoded from a message payload

  datatype Image = Image(shape: seq<nat>, dtype: string, origin: Origin)

  /** Fields a class does not have are `None` (the poller's start message has no run name,
      `GISAXSRawEvent` in the poller has no URL). */
  datatype Msg =
    | Start(width: int, height: int, dataType: string, tiledUrl: Option<string>,
            runName: Option<string>, runId: Option<string>)
    | Event(frameNumber: int, image: Option<Image>, tiledUrl: Option<string>)
    | Stop(numFrames: int)

  /** What a consumer of a message stream has seen of the current run. */
  datatype RunState = Idle | Open(frames: nat) | Broken

  /** One message of the protocol: a Start opens a run when none is open, an Event must carry
      the next frame number of the open run, a Stop must carry the number of events sent. */
  function Next(st: RunState, m: Msg): RunState
  {
    match st
    case Idle => if m.Start? then Open(0) else Broken
    case Open(k) =>
      if m.Event? && m.frameNumber == k then Open(k + 1)
      else if m.Stop? && m.numFrames == k then Idle
      else Broken
    case Broken => Broken
  }

  /** The state after consuming `ms` from `st`. */
  function TrackFrom(st: RunState, ms: seq<Msg>): RunState
    decreases |ms|
  {
    if |ms| == 0 then st else TrackFrom(Next(st, ms[0]), ms[1..])
  }

  function Track(ms: seq<Msg>): RunState
  {
    TrackFrom(Idle, ms)
  }

  lemma {:induction false} TrackFromAppend(st: RunState, ms: seq<Msg>, m: Msg)
    ensures TrackFrom(st, ms + [m]) == Next(TrackFrom(st, ms), m)
    decreases |ms|
  {
    if |ms| > 0 {
      assert (ms + [m])[1..] == ms[1..] + [m];
      TrackFromAppend(Next(st, ms[0]), ms[1..], m);
    }
  }

  lemma {:induction false} TrackFromConcat(st: RunState, a: seq<Msg>, b: seq<Msg>)
    ensures TrackFrom(st, a + b) == TrackFrom(TrackFrom(st, a), b)
    decreases |a|
  {
    if |a| > 0 {
      assert (a + b)[1..] == a[1..] + b;
      TrackFromConcat(Next(st, a[0]), a[1..], b);
    } else {
      assert a + b == b;
    }
  }

  /** Once the protocol is broken, nothing repairs it. */
  lemma {:induction false} BrokenStaysBroken(ms: seq<Msg>)
    ensures TrackFrom(Broken, ms) == Broken
    decreases |ms|
  {
    if |ms| > 0 {
      BrokenStaysBroken(ms[1..]);
    }
  }

  /** The frame events of one run: numbers `from` .. `from + k - 1`, in order. */
  ghost predicate NumberedEvents(es: seq<Msg>, from: nat)
  {
    forall i :: 0 <= i < |es| ==> es[i].Event? && es[i].frameNumber == from + i
  }

  /** Events numbered consecutively from the open run's count keep it open. */
  lemma {:induction false} EventsKeepRunOpen(k: nat, es: seq<Msg>)
    requires NumberedEvents(es, k)
    ensures TrackFrom(Open(k), es) == Open(k + |es|)
    decreases |es|
  {
    if |es| > 0 {
      assert NumberedEvents(es[1..], k + 1) by {
        forall i | 0 <= i < |es[1..]|
          ensures es[1..][i].Event? && es[1..][i].frameNumber == k + 1 + i
        {
          assert es[1..][i] == es[i + 1];
        }
      }
      EventsKeepRunOpen(k + 1, es[1..]);
    }
  }

  /** A complete run: Start, then `k` events numbered 0 .. k-1, then Stop(k), takes an idle
      consumer back to idle. */
  lemma CompleteRunIsClosed(start: Msg, es: seq<Msg>)
    requires start.Start? && NumberedEvents(es, 0)
    ensures Track([start] + es + [Stop(|es|)]) == Idle
  {
    var ms := [start] + es + [Stop(|es|)];
    TrackFromConcat(Idle, [start] + es, [Stop(|es|)]);
    TrackFromConcat(Idle, [start], es);
    assert TrackFrom(Idle, [start]) == Open(0);
    EventsKeepRunOpen(0, es);
  }
}
