/**
 * The GISAXS Tiled poller and its catalog helpers: `unsent_frame_numbers`, `most_recent_run`,
 * the run state machine of `TiledPollingFrameListener.start`, the get-or-create container
 * helpers and `patch_tiled_frame`.
 *
 * The catalog the poller watches is a listing of runs (in key order) observed afresh on every
 * pass of the `while True` loop; a run is seen through its key, its frame count (the first
 * dimension of its frame array), the shape and dtype of one frame, and whether it has a stop
 * document. The poller is modelled twice: as written, and with the three defects listed under
 * Findings in README.md corrected.
 */
module GisaxsTiled {
  import opened Wrappers
  import opened Messages
  import CatalogTree

  const RunsContainerName: string := "runs"

  // ---------------------------------------------------------------------------------------
  // unsent_frame_numbers
  // ---------------------------------------------------------------------------------------

  /** Python's `min` of a non-empty list. */
  function Min(s: seq<int>): int
    requires |s| > 0
  {
    if |s| == 1 then s[0] else var t := Min(s[1..]); if s[0] <= t then s[0] else t
  }

  /** Python's `max` of a non-empty list. */
  function Max(s: seq<int>): int
    requires |s| > 0
  {
    if |s| == 1 then s[0] else var t := Max(s[1..]); if s[0] >= t then s[0] else t
  }

  lemma {:induction false} MinMaxSpec(s: seq<int>)
    requires |s| > 0
    ensures Min(s) in s && forall x :: x in s ==> Min(s) <= x
    ensures Max(s) in s && forall x :: x in s ==> x <= Max(s)
  {
    if |s| > 1 {
      MinMaxSpec(s[1..]);
      assert s == [s[0]] + s[1..];
    }
  }

  /** Python's `list(range(lo, hi))`. */
  function Range(lo: int, hi: int): (r: seq<int>)
    ensures |r| == if lo < hi then hi - lo else 0
    ensures forall k :: 0 <= k < |r| ==> r[k] == lo + k
  {
    seq(if lo < hi then hi - lo else 0, k => lo + k)
  }

  lemma RangeMembers(lo: int, hi: int)
    ensures forall x :: x in Range(lo, hi) <==> lo <= x < hi
  {
    var r := Range(lo, hi);
    forall x | lo <= x < hi
      ensures x in r
    {
      assert r[x - lo] == x;
    }
  }

  lemma RangeConcat(a: int, b: int, c: int)
    requires a <= b <= c
    ensures Range(a, b) + Range(b, c) == Range(a, c)
  {
    var l, r, whole := Range(a, b), Range(b, c), Range(a, c);
    assert |l + r| == |whole|;
    forall k | 0 <= k < |whole|
      ensures (l + r)[k] == whole[k]
    {
      if k >= |l| {
        assert (l + r)[k] == r[k - |l|];
      }
    }
  }

  lemma RangeSnoc(lo: int, hi: int)
    requires lo <= hi
    ensures Range(lo, hi + 1) == Range(lo, hi) + [hi]
  {
  }

  ghost predicate Ascending(s: seq<int>)
  {
    forall i, j :: 0 <= i < j < |s| ==> s[i] < s[j]
  }

  lemma RangeAscending(lo: int, hi: int)
    ensures Ascending(Range(lo, hi))
  {
  }

  lemma AscendingConcat(a: seq<int>, b: seq<int>)
    requires Ascending(a) && Ascending(b)
    requires forall x, y :: x in a && y in b ==> x < y
    ensures Ascending(a + b)
  {
    var s := a + b;
    forall i, j | 0 <= i < j < |s|
      ensures s[i] < s[j]
    {
      if j < |a| {
        assert s[i] == a[i] && s[j] == a[j];
      } else if i >= |a| {
        assert s[i] == b[i - |a|] && s[j] == b[j - |a|];
      } else {
        assert s[i] == a[i] && s[j] == b[j - |a|];
        assert a[i] in a && b[j - |a|] in b;
      }
    }
  }

  /** `[i for i in xs if i not in sent]`. */
  function Missing(xs: seq<int>, sent: seq<int>): seq<int>
  {
    if |xs| == 0 then [] else (if xs[0] in sent then [] else [xs[0]]) + Missing(xs[1..], sent)
  }

  lemma {:induction false} MissingMembers(xs: seq<int>, sent: seq<int>)
    ensures forall x :: x in Missing(xs, sent) <==> x in xs && x !in sent
  {
    if |xs| > 0 {
      MissingMembers(xs[1..], sent);
      assert xs == [xs[0]] + xs[1..];
    }
  }

  lemma {:induction false} MissingAscending(xs: seq<int>, sent: seq<int>)
    requires Ascending(xs)
    ensures Ascending(Missing(xs, sent))
  {
    if |xs| > 0 {
      var rest := xs[1..];
      MissingAscending(rest, sent);
      MissingMembers(rest, sent);
      var head: seq<int> := if xs[0] in sent then [] else [xs[0]];
      forall x, y | x in head && y in Missing(rest, sent)
        ensures x < y
      {
        var k :| 0 <= k < |rest| && rest[k] == y;
        assert xs[k + 1] == y;
      }
      AscendingConcat(head, Missing(rest, sent));
    }
  }

  lemma {:induction false} MissingConcat(a: seq<int>, b: seq<int>, sent: seq<int>)
    ensures Missing(a + b, sent) == Missing(a, sent) + Missing(b, sent)
  {
    if |a| == 0 {
      assert a + b == b;
    } else {
      assert (a + b)[0] == a[0];
      assert (a + b)[1..] == a[1..] + b;
      MissingConcat(a[1..], b, sent);
    }
  }

  /** Filtering a list none of whose members were sent keeps it whole. */
  lemma {:induction false} MissingNoneSent(xs: seq<int>, sent: seq<int>)
    requires forall k :: 0 <= k < |xs| ==> xs[k] !in sent
    ensures Missing(xs, sent) == xs
  {
    if |xs| > 0 {
      assert xs[0] !in sent;
      assert forall k :: 0 <= k < |xs[1..]| ==> xs[1..][k] == xs[k + 1];
      MissingNoneSent(xs[1..], sent);
      assert xs == [xs[0]] + xs[1..];
    }
  }

  /** Filtering a list all of whose members were sent leaves nothing. */
  lemma {:induction false} MissingAllSent(xs: seq<int>, sent: seq<int>)
    requires forall k :: 0 <= k < |xs| ==> xs[k] in sent
    ensures Missing(xs, sent) == []
  {
    if |xs| > 0 {
      assert xs[0] in sent;
      assert forall k :: 0 <= k < |xs[1..]| ==> xs[1..][k] == xs[k + 1];
      MissingAllSent(xs[1..], sent);
    }
  }

  /** `unsent_frame_numbers(sent_frames, num_frames)` as written: the gaps between the smallest
      and largest sent frame, then every number after the largest up to `num_frames`
      INCLUSIVE; `min` of an empty list raises `ValueError`. */
  function UnsentFrameNumbers(sent: seq<int>, numFrames: int): Result<seq<int>>
  {
    if |sent| == 0 then Raised(ValueError) else Ok(Gaps(sent) + Extras(sent, numFrames))
  }

  /** `[i for i in range(min(sent_frames), max(sent_frames) + 1) if i not in sent_frames]`. */
  function Gaps(sent: seq<int>): seq<int>
    requires |sent| > 0
  {
    Missing(Range(Min(sent), Max(sent) + 1), sent)
  }

  /** `list(range(max(sent_frames) + 1, num_frames + 1))`. */
  function Extras(sent: seq<int>, numFrames: int): seq<int>
    requires |sent| > 0
  {
    Range(Max(sent) + 1, numFrames + 1)
  }

  lemma GapsSpec(sent: seq<int>)
    requires |sent| > 0
    ensures forall x :: x in Gaps(sent) <==> Min(sent) <= x <= Max(sent) && x !in sent
    ensures Ascending(Gaps(sent))
  {
    RangeMembers(Min(sent), Max(sent) + 1);
    MissingMembers(Range(Min(sent), Max(sent) + 1), sent);
    RangeAscending(Min(sent), Max(sent) + 1);
    MissingAscending(Range(Min(sent), Max(sent) + 1), sent);
  }

  lemma ExtrasSpec(sent: seq<int>, numFrames: int)
    requires |sent| > 0
    ensures forall x :: x in Extras(sent, numFrames) <==> Max(sent) < x <= numFrames
    ensures Ascending(Extras(sent, numFrames))
  {
    RangeMembers(Max(sent) + 1, numFrames + 1);
    RangeAscending(Max(sent) + 1, numFrames + 1);
  }

  /** What `unsent_frame_numbers` returns: it raises exactly for an empty list; otherwise a
      strictly ascending list of numbers none of which was sent, made of the gaps in
      [min, max] and the numbers in (max, num_frames]. */
  lemma UnsentFrameNumbersSpec(sent: seq<int>, numFrames: int)
    ensures UnsentFrameNumbers(sent, numFrames) == Raised(ValueError) <==> |sent| == 0
    ensures UnsentFrameNumbers(sent, numFrames).Raised? ==> |sent| == 0
    ensures |sent| > 0 ==>
      var r := UnsentFrameNumbers(sent, numFrames).value;
      && (forall x :: x in r <==>
            (Min(sent) <= x <= Max(sent) && x !in sent) || (Max(sent) < x <= numFrames))
      && (forall x :: x in r ==> x !in sent)
      && Ascending(r)
  {
    if |sent| > 0 {
      MinMaxSpec(sent);
      var gaps, extras := Gaps(sent), Extras(sent, numFrames);
      var r := UnsentFrameNumbers(sent, numFrames).value;
      assert r == gaps + extras;
      GapsSpec(sent);
      ExtrasSpec(sent, numFrames);
      assert forall x :: x in r <==> x in gaps || x in extras;
      AscendingConcat(gaps, extras);
    }
  }

  /** The case pinned down by the repository's unit test for this function. */
  lemma UnsentFrameNumbersExample()
    ensures UnsentFrameNumbers([0, 1, 2, 5], 8) == Ok([3, 4, 6, 7, 8])
  {
    GapsExample();
    ExtrasExample();
    UnsentOfParts([0, 1, 2, 5], 8, [3, 4], [6, 7, 8]);
    assert [3, 4] + [6, 7, 8] == [3, 4, 6, 7, 8];
  }

  lemma UnsentOfParts(sent: seq<int>, numFrames: int, gaps: seq<int>, extras: seq<int>)
    requires |sent| > 0 && Gaps(sent) == gaps && Extras(sent, numFrames) == extras
    ensures UnsentFrameNumbers(sent, numFrames) == Ok(gaps + extras)
  {
  }

  lemma ExtrasExample()
    ensures Extras([0, 1, 2, 5], 8) == [6, 7, 8]
  {
    var sent := [0, 1, 2, 5];
    MinMaxSpec(sent);
    assert Max(sent) == 5;
    assert Range(6, 9) == [6, 7, 8];
  }

  lemma GapsExample()
    ensures Gaps([0, 1, 2, 5]) == [3, 4]
  {
    var sent := [0, 1, 2, 5];
    MinMaxSpec(sent);
    assert Min(sent) == 0 && Max(sent) == 5;
    assert Range(0, 6) == [0, 1, 2, 3, 4, 5];
    assert Missing([5], sent) == [];
    assert Missing([4, 5], sent) == [4];
    assert Missing([3, 4, 5], sent) == [3, 4];
    assert Missing([2, 3, 4, 5], sent) == [3, 4];
    assert Missing([1, 2, 3, 4, 5], sent) == [3, 4];
  }

  /** The pending frames the loop evidently means: every frame of the run, in order, that was
      not sent yet (for an empty list, all of them; the range excludes `num_frames`). */
  function PendingFrames(sent: seq<int>, numFrames: int): seq<int>
  {
    Missing(Range(0, numFrames), sent)
  }

  lemma PendingFramesSpec(sent: seq<int>, numFrames: int)
    ensures forall x :: x in PendingFrames(sent, numFrames) <==> 0 <= x < numFrames && x !in sent
    ensures Ascending(PendingFrames(sent, numFrames))
  {
    RangeMembers(0, numFrames);
    MissingMembers(Range(0, numFrames), sent);
    RangeAscending(0, numFrames);
    MissingAscending(Range(0, numFrames), sent);
  }

  lemma PendingSplitsAtMax(sent: seq<int>, numFrames: int)
    requires |sent| > 0 && Min(sent) == 0 && Max(sent) < numFrames
    ensures PendingFrames(sent, numFrames) == Gaps(sent) + Range(Max(sent) + 1, numFrames)
  {
    var mx := Max(sent);
    var head, tail := Range(0, mx + 1), Range(mx + 1, numFrames);
    MinLeMax(sent);
    calc {
      PendingFrames(sent, numFrames);
      Missing(Range(0, numFrames), sent);
      { RangeConcat(0, mx + 1, numFrames); }
      Missing(head + tail, sent);
      { MissingConcat(head, tail, sent); }
      Missing(head, sent) + Missing(tail, sent);
      { AboveMaxUnsent(sent, tail); MissingNoneSent(tail, sent); }
      Missing(head, sent) + tail;
      Gaps(sent) + tail;
    }
  }

  lemma MinLeMax(s: seq<int>)
    requires |s| > 0
    ensures Min(s) <= Max(s)
  {
    MinMaxSpec(s);
  }

  /** Numbers above the largest sent frame were not sent. */
  lemma AboveMaxUnsent(sent: seq<int>, xs: seq<int>)
    requires |sent| > 0 && forall k :: 0 <= k < |xs| ==> xs[k] > Max(sent)
    ensures forall k :: 0 <= k < |xs| ==> xs[k] !in sent
  {
    MinMaxSpec(sent);
  }

  /** Where both are defined on a run read from frame 0, `unsent_frame_numbers` returns exactly
      the corrected pending list plus the out-of-range index `num_frames`. */
  lemma UnsentAgreesWithPending(sent: seq<int>, numFrames: int)
    requires |sent| > 0 && Min(sent) == 0 && Max(sent) < numFrames
    ensures UnsentFrameNumbers(sent, numFrames) == Ok(PendingFrames(sent, numFrames) + [numFrames])
  {
    var gaps, tail := Gaps(sent), Range(Max(sent) + 1, numFrames);
    calc {
      UnsentFrameNumbers(sent, numFrames);
      Ok(gaps + Extras(sent, numFrames));
      { RangeSnoc(Max(sent) + 1, numFrames); }
      Ok(gaps + (tail + [numFrames]));
      { assert gaps + (tail + [numFrames]) == (gaps + tail) + [numFrames]; }
      Ok((gaps + tail) + [numFrames]);
      { PendingSplitsAtMax(sent, numFrames); }
      Ok(PendingFrames(sent, numFrames) + [numFrames]);
    }
  }

  /** After the frames 0 .. k-1 were sent, the corrected pending list is k .. n-1. */
  lemma PendingAfterPrefix(k: nat, n: nat)
    ensures PendingFrames(Range(0, k), n) == Range(k, n)
  {
    RangeMembers(0, k);
    if k >= n {
      MissingAllSent(Range(0, n), Range(0, k));
    } else {
      RangeConcat(0, k, n);
      MissingConcat(Range(0, k), Range(k, n), Range(0, k));
      MissingAllSent(Range(0, k), Range(0, k));
      MissingNoneSent(Range(k, n), Range(0, k));
    }
  }

  // ---------------------------------------------------------------------------------------
  // The catalog as the poller sees it
  // ---------------------------------------------------------------------------------------

  datatype Run = Run(key: string, width: int, height: int, dataType: string,
                     frameCount: nat, frameShape: seq<nat>, frameDtype: string, hasStop: bool)

  /** `most_recent_run`: the run under the last key; `keys()[-1]` of an empty listing raises. */
  function MostRecentRun(listing: seq<Run>): Result<Run>
  {
    if |listing| == 0 then Raised(IndexError) else Ok(listing[|listing| - 1])
  }

  /** The run stored under `key` in the current listing. */
  function Lookup(listing: seq<Run>, key: string): (r: Option<Run>)
    ensures r.Some? ==> r.value in listing && r.value.key == key
    ensures r.None? ==> forall k :: 0 <= k < |listing| ==> listing[k].key != key
  {
    if |listing| == 0 then None
    else if listing[|listing| - 1].key == key then Some(listing[|listing| - 1])
    else Lookup(listing[..|listing| - 1], key)
  }

  /** The poller's start message carries only the run's width, height and data type. */
  function StartOf(run: Run): Msg
  {
    Start(run.width, run.height, run.dataType, None, None, None)
  }

  /** NumPy's `frames_array[u]` on the first axis: Python-style negative indices count from
      the end, anything else out of range raises. */
  predicate InRange(run: Run, u: int)
  {
    -(run.frameCount as int) <= u < run.frameCount
  }

  function RowImage(run: Run, u: int): Result<Image>
  {
    if InRange(run, u) then
      Ok(Image(run.frameShape, run.frameDtype, CatalogRow(run.key, if u < 0 then u + run.frameCount else u)))
    else Raised(IndexError)
  }

  // ---------------------------------------------------------------------------------------
  // The polling loop
  // ---------------------------------------------------------------------------------------

  datatype Variant = AsWritten | Corrected

  /** The early exit for a run whose frames were all sent. As written it compares the list
      `sent_frames` with the integer frame count, which in Python is always `False`. */
  function UpToDate(v: Variant, sent: seq<int>, numFrames: nat): bool
  {
    match v
    case AsWritten => false
    case Corrected => |sent| == numFrames
  }

  function Pending(v: Variant, sent: seq<int>, numFrames: nat): Result<seq<int>>
  {
    match v
    case AsWritten => UnsentFrameNumbers(sent, numFrames)
    case Corrected => Ok(PendingFrames(sent, numFrames))
  }

  /** The loop's two variables `current_tiled_run` (by its key) and `sent_frames`. */
  datatype PollState = PollState(current: Option<string>, sent: seq<int>)

  const Initial := PollState(None, [])

  /** Either the loop is still running in the given state when the modelled passes run out,
      or an exception escaped and ended `start()`. */
  datatype End = Running(st: PollState) | Died(exc: PyException)

  datatype Trace = Trace(msgs: seq<Msg>, end: End)

  function Prepend(ms: seq<Msg>, t: Trace): Trace
  {
    Trace(ms + t.msgs, t.end)
  }

  datatype Sent = Sent(msgs: seq<Msg>, sent: seq<int>, failure: Option<PyException>)

  function PrependSent(ms: seq<Msg>, s: Sent): Sent
  {
    Sent(ms + s.msgs, s.sent, s.failure)
  }

  /** The `for unsent_frame in unsents` loop: each pending row becomes an event numbered with
      the length of `sent_frames` before the row is appended to it. */
  function SendRows(run: Run, pending: seq<int>, sent: seq<int>): Sent
    decreases |pending|
  {
    if |pending| == 0 then Sent([], sent, None)
    else
      match RowImage(run, pending[0])
      case Raised(e) => Sent([], sent, Some(e))
      case Ok(image) =>
        PrependSent([Event(|sent|, Some(image), None)], SendRows(run, pending[1..], sent + [pending[0]]))
  }

  /** The rest of one pass once the current run is known by its key. */
  function Observe(v: Variant, listing: seq<Run>, key: string, sent: seq<int>): Trace
  {
    match Lookup(listing, key)
    case None => Trace([], Died(KeyError))
    case Some(run) =>
      if run.hasStop then Trace([Stop(|sent|)], Running(Initial))
      else if UpToDate(v, sent, run.frameCount) then Trace([], Running(PollState(Some(key), sent)))
      else
        match Pending(v, sent, run.frameCount)
        case Raised(e) => Trace([], Died(e))
        case Ok(pending) =>
          var s := SendRows(run, pending, sent);
          Trace(s.msgs, if s.failure.Some? then Died(s.failure.value) else Running(PollState(Some(key), s.sent)))
  }

  /** One pass of the `while True` body over the listing seen in that pass. */
  function Cycle(v: Variant, listing: seq<Run>, st: PollState): Trace
  {
    if st.current.None? then
      match MostRecentRun(listing)
      case Raised(e) => Trace([], Died(e))
      case Ok(run) => Prepend([StartOf(run)], Observe(v, listing, run.key, st.sent))
    else Observe(v, listing, st.current.value, st.sent)
  }

  /** The messages handed to `operator.process` over successive passes, one listing each. */
  function PollFrom(v: Variant, cycles: seq<seq<Run>>, st: PollState): Trace
    decreases |cycles|
  {
    if |cycles| == 0 then Trace([], Running(st))
    else
      var t := Cycle(v, cycles[0], st);
      match t.end
      case Died(_) => t
      case Running(next) => Prepend(t.msgs, PollFrom(v, cycles[1..], next))
  }

  /** Lines 84-88: process the pending rows in order, appending each after it was processed. */
  method ProcessPending(run: Run, pending: seq<int>, sent0: seq<int>)
    returns (msgs: seq<Msg>, sent: seq<int>, failure: Option<PyException>)
    ensures Sent(msgs, sent, failure) == SendRows(run, pending, sent0)
  {
    msgs, sent, failure := [], sent0, None;
    var j := 0;
    while j < |pending|
      invariant 0 <= j <= |pending|
      invariant SendRows(run, pending, sent0) == PrependSent(msgs, SendRows(run, pending[j..], sent))
    {
      assert pending[j..][1..] == pending[j + 1..];
      var image := RowImage(run, pending[j]);
      if image.Raised? {
        failure := Some(image.exc);
        return;
      }
      var event := Event(|sent|, Some(image.value), None);
      assert msgs + ([event] + SendRows(run, pending[j + 1..], sent + [pending[j]]).msgs)
          == (msgs + [event]) + SendRows(run, pending[j + 1..], sent + [pending[j]]).msgs;
      msgs := msgs + [event];
      sent := sent + [pending[j]];
      j := j + 1;
    }
    assert pending[j..] == [];
    assert msgs + [] == msgs;
  }

  /** One pass of the loop body (lines 53-88). */
  method PollOnce(v: Variant, listing: seq<Run>, current: Option<string>, sent: seq<int>)
    returns (msgs: seq<Msg>, end: End)
    ensures Trace(msgs, end) == Cycle(v, listing, PollState(current, sent))
  {
    msgs := [];
    var key: string;
    if current.None? {
      var recent := MostRecentRun(listing);
      if recent.Raised? {
        return [], Died(recent.exc);
      }
      key := recent.value.key;
      msgs := [StartOf(recent.value)];
    } else {
      key := current.value;
    }
    var found := Lookup(listing, key);
    if found.None? {
      return msgs, Died(KeyError);
    }
    var run := found.value;
    if run.hasStop {
      return msgs + [Stop(|sent|)], Running(Initial);
    }
    if UpToDate(v, sent, run.frameCount) {
      return msgs, Running(PollState(Some(key), sent));
    }
    var unsents := Pending(v, sent, run.frameCount);
    if unsents.Raised? {
      return msgs, Died(unsents.exc);
    }
    var rowMsgs, sent', failure := ProcessPending(run, unsents.value, sent);
    msgs := msgs + rowMsgs;
    end := if failure.Some? then Died(failure.value) else Running(PollState(Some(key), sent'));
  }

  /** `TiledPollingFrameListener.start` over a finite number of passes, `cycles[i]` being the
      listing observed in pass `i`. */
  method Listen(v: Variant, cycles: seq<seq<Run>>) returns (out: seq<Msg>, end: End)
    ensures Trace(out, end) == PollFrom(v, cycles, Initial)
  {
    var current: Option<string> := None;
    var sent: seq<int> := [];
    out := [];
    var i := 0;
    while i < |cycles|
      invariant 0 <= i <= |cycles|
      invariant PollFrom(v, cycles, Initial) == Prepend(out, PollFrom(v, cycles[i..], PollState(current, sent)))
    {
      var msgs, e := PollOnce(v, cycles[i], current, sent);
      PollStep(v, cycles, i, PollState(current, sent));
      if e.Died? {
        return out + msgs, e;
      }
      PrependTwice(out, msgs, PollFrom(v, cycles[i + 1..], e.st));
      out := out + msgs;
      current, sent := e.st.current, e.st.sent;
      i := i + 1;
    }
    assert cycles[i..] == [];
    assert out + [] == out;
    end := Running(PollState(current, sent));
  }

  /** One cycle of the loop: it ends the trace when it died, otherwise the rest follows. */
  lemma PollStep(v: Variant, cycles: seq<seq<Run>>, i: nat, st: PollState)
    requires i < |cycles|
    ensures var t := Cycle(v, cycles[i], st);
      PollFrom(v, cycles[i..], st) == if t.end.Died? then t else Prepend(t.msgs, PollFrom(v, cycles[i + 1..], t.end.st))
  {
    assert cycles[i..][0] == cycles[i];
    assert cycles[i..][1..] == cycles[i + 1..];
  }

  lemma PrependTwice(a: seq<Msg>, b: seq<Msg>, t: Trace)
    ensures Prepend(a, Prepend(b, t)) == Prepend(a + b, t)
  {
    assert a + (b + t.msgs) == (a + b) + t.msgs;
  }

  // ---------------------------------------------------------------------------------------
  // Properties of the polling loop
  // ---------------------------------------------------------------------------------------

  /** What the consumer of the poller's messages should have seen in a given loop state. */
  function RunTrack(st: PollState): RunState
  {
    if st.current.None? then Idle else Open(|st.sent|)
  }

  /** The corrected loop's invariant: the rows sent are 0 .. k-1, none while no run is current. */
  ghost predicate Good(st: PollState)
  {
    st.sent == Range(0, |st.sent|) && (st.current.None? ==> st.sent == [])
  }

  /** Every frame event carries an image taken from the catalog row its number names. */
  ghost predicate RowsMatchNumbers(ms: seq<Msg>)
  {
    forall k :: 0 <= k < |ms| && ms[k].Event? ==>
      ms[k].image.Some? && ms[k].image.value.origin.CatalogRow? && ms[k].image.value.origin.row == ms[k].frameNumber
  }

  /** The row loop: events numbered from the length of `sent_frames`, in the computed order,
      each row appended after its event; it stops at the first row out of range. */
  lemma {:induction false} SendRowsSpec(run: Run, pending: seq<int>, sent: seq<int>)
    ensures var s := SendRows(run, pending, sent);
      && |s.msgs| <= |pending|
      && s.sent == sent + pending[..|s.msgs|]
      && (forall k :: 0 <= k < |s.msgs| ==>
            InRange(run, pending[k]) && s.msgs[k] == Event(|sent| + k, Some(RowImage(run, pending[k]).value), None))
      && (|s.msgs| == |pending| <==> s.failure.None?)
      && (|s.msgs| < |pending| ==> !InRange(run, pending[|s.msgs|]) && s.failure == Some(IndexError))
    decreases |pending|
  {
    if |pending| > 0 && InRange(run, pending[0]) {
      var rest := SendRows(run, pending[1..], sent + [pending[0]]);
      SendRowsSpec(run, pending[1..], sent + [pending[0]]);
      var s := SendRows(run, pending, sent);
      assert s.msgs == [s.msgs[0]] + rest.msgs;
      assert sent + pending[..|s.msgs|] == (sent + [pending[0]]) + pending[1..][..|rest.msgs|];
      forall k | 0 < k < |s.msgs|
        ensures s.msgs[k] == Event(|sent| + k, Some(RowImage(run, pending[k]).value), None)
      {
        assert s.msgs[k] == rest.msgs[k - 1];
        assert pending[1..][k - 1] == pending[k];
      }
    }
  }

  /** The row loop of the corrected poller on the rows k .. n-1 after 0 .. k-1. */
  lemma SendRowsFromPrefix(run: Run, k: nat)
    requires k <= run.frameCount
    ensures var s := SendRows(run, Range(k, run.frameCount), Range(0, k));
      && s.failure.None? && s.sent == Range(0, run.frameCount)
      && NumberedEvents(s.msgs, k) && RowsMatchNumbers(s.msgs)
      && TrackFrom(Open(k), s.msgs) == Open(run.frameCount)
  {
    var p := Range(k, run.frameCount);
    SendRowsSpec(run, p, Range(0, k));
    var s := SendRows(run, p, Range(0, k));
    assert p[..|s.msgs|] == p;
    RangeConcat(0, k, run.frameCount);
    EventsKeepRunOpen(k, s.msgs);
  }

  /** One pass of the corrected poller keeps its invariant, follows the Start, Event*, Stop
      protocol from the state it started in, and dies only on an empty catalog or a current
      run that vanished from it. */
  lemma CorrectedCycle(listing: seq<Run>, st: PollState)
    requires Good(st)
    ensures var t := Cycle(Corrected, listing, st);
      && RowsMatchNumbers(t.msgs)
      && TrackFrom(RunTrack(st), t.msgs) != Broken
      && (t.end.Running? ==> Good(t.end.st) && TrackFrom(RunTrack(st), t.msgs) == RunTrack(t.end.st))
      && (t.end.Died? ==> (t.end.exc == IndexError && st.current.None? && |listing| == 0) || t.end.exc == KeyError)
  {
    var t := Cycle(Corrected, listing, st);
    if st.current.None? && |listing| > 0 {
      var run := listing[|listing| - 1];
      var o := Observe(Corrected, listing, run.key, st.sent);
      ObserveCorrected(listing, run.key, st.sent);
      assert t.msgs == [StartOf(run)] + o.msgs;
      TrackFromConcat(Idle, [StartOf(run)], o.msgs);
      assert TrackFrom(Idle, [StartOf(run)]) == Open(0);
      forall k | 0 < k < |t.msgs| ensures t.msgs[k] == o.msgs[k - 1] {}
    } else if st.current.Some? {
      ObserveCorrected(listing, st.current.value, st.sent);
    }
  }

  lemma ObserveCorrected(listing: seq<Run>, key: string, sent: seq<int>)
    requires sent == Range(0, |sent|)
    ensures var t := Observe(Corrected, listing, key, sent);
      && RowsMatchNumbers(t.msgs)
      && TrackFrom(Open(|sent|), t.msgs) != Broken
      && (t.end.Running? ==> Good(t.end.st) && TrackFrom(Open(|sent|), t.msgs) == RunTrack(t.end.st))
      && (t.end.Died? ==> t.end.exc == KeyError)
  {
    match Lookup(listing, key)
    case None =>
    case Some(run) =>
      if !run.hasStop && |sent| != run.frameCount {
        PendingAfterPrefix(|sent|, run.frameCount);
        if |sent| < run.frameCount {
          SendRowsFromPrefix(run, |sent|);
        } else {
          assert Range(|sent|, run.frameCount) == [];
        }
      }
  }

  /** The corrected poller, over any number of passes from a state satisfying its invariant:
      the messages follow the protocol, every event's number is the catalog row it carries,
      and the loop dies only on an empty catalog or a vanished run. */
  lemma {:induction false} CorrectedPoll(cycles: seq<seq<Run>>, st: PollState)
    requires Good(st)
    ensures var t := PollFrom(Corrected, cycles, st);
      && RowsMatchNumbers(t.msgs)
      && TrackFrom(RunTrack(st), t.msgs) != Broken
      && (t.end.Running? ==> Good(t.end.st) && TrackFrom(RunTrack(st), t.msgs) == RunTrack(t.end.st))
      && (t.end.Died? ==> t.end.exc == IndexError || t.end.exc == KeyError)
    decreases |cycles|
  {
    if |cycles| > 0 {
      var c := Cycle(Corrected, cycles[0], st);
      CorrectedCycle(cycles[0], st);
      if c.end.Running? {
        var rest := PollFrom(Corrected, cycles[1..], c.end.st);
        assert PollFrom(Corrected, cycles, st) == Prepend(c.msgs, rest);
        CorrectedPoll(cycles[1..], c.end.st);
        TrackFromConcat(RunTrack(st), c.msgs, rest.msgs);
        RowsMatchConcat(c.msgs, rest.msgs);
      } else {
        assert PollFrom(Corrected, cycles, st) == c;
      }
    }
  }

  lemma RowsMatchConcat(a: seq<Msg>, b: seq<Msg>)
    requires RowsMatchNumbers(a) && RowsMatchNumbers(b)
    ensures RowsMatchNumbers(a + b)
  {
    var all := a + b;
    forall k | 0 <= k < |all| && all[k].Event?
      ensures all[k].image.Some? && all[k].image.value.origin.CatalogRow?
      ensures all[k].image.value.origin.row == all[k].frameNumber
    {
      if k >= |a| {
        assert all[k] == b[k - |a|];
      } else {
        assert all[k] == a[k];
      }
    }
  }

  /** One pass of the poller as written, whose `sent_frames` is empty at line 83: it ends with a
      Stop of zero frames and the initial state, or it dies; it never sends a frame event. */
  lemma AsWrittenCycle(listing: seq<Run>, st: PollState)
    requires st.sent == []
    ensures var t := Cycle(AsWritten, listing, st);
      && (forall m :: m in t.msgs ==> m.Start? || m == Stop(0))
      && TrackFrom(RunTrack(st), t.msgs) != Broken
      && (t.end.Running? ==> t.end.st == Initial && TrackFrom(RunTrack(st), t.msgs) == Idle)
  {
    var t := Cycle(AsWritten, listing, st);
    if st.current.None? && |listing| > 0 {
      var run := listing[|listing| - 1];
      var o := Observe(AsWritten, listing, run.key, st.sent);
      assert t.msgs == [StartOf(run)] + o.msgs;
      TrackFromConcat(Idle, [StartOf(run)], o.msgs);
      assert TrackFrom(Idle, [StartOf(run)]) == Open(0);
    }
  }

  /** The poller as written sends only Start and Stop(0), alternating from Start, and every pass
      that does not end the loop leaves it in its initial state. */
  lemma {:induction false} AsWrittenPoll(cycles: seq<seq<Run>>, st: PollState)
    requires st.sent == []
    ensures var t := PollFrom(AsWritten, cycles, st);
      && (forall m :: m in t.msgs ==> m.Start? || m == Stop(0))
      && TrackFrom(RunTrack(st), t.msgs) != Broken
      && (t.end.Running? ==> t.end.st.sent == [])
    decreases |cycles|
  {
    if |cycles| > 0 {
      var c := Cycle(AsWritten, cycles[0], st);
      AsWrittenCycle(cycles[0], st);
      if c.end.Running? {
        var rest := PollFrom(AsWritten, cycles[1..], c.end.st);
        AsWrittenPoll(cycles[1..], c.end.st);
        TrackFromConcat(RunTrack(st), c.msgs, rest.msgs);
      }
    }
  }

  /** The first pass that finds the current run without a stop document ends the loop with
      `ValueError` from `min([])`. */
  lemma AsWrittenDiesOnOpenRun(listing: seq<Run>, key: string)
    requires Lookup(listing, key).Some? && !Lookup(listing, key).value.hasStop
    ensures Cycle(AsWritten, listing, PollState(Some(key), [])) == Trace([], Died(ValueError))
    ensures listing[|listing| - 1] == Lookup(listing, key).value ==>
      Cycle(AsWritten, listing, Initial) == Trace([StartOf(listing[|listing| - 1])], Died(ValueError))
  {
  }

  /** A run of three frames without a stop document: as written the poller sends the Start and
      dies; corrected, it sends the three frames numbered by their rows and keeps polling. */
  lemma PollerExample()
    ensures var run := Run("scan1", 1475, 1679, "uint32", 3, [1679, 1475], "uint32", false);
      && PollFrom(AsWritten, [[run]], Initial) == Trace([StartOf(run)], Died(ValueError))
      && PollFrom(Corrected, [[run]], Initial) == Trace(
           [StartOf(run),
            Event(0, Some(Image([1679, 1475], "uint32", CatalogRow("scan1", 0))), None),
            Event(1, Some(Image([1679, 1475], "uint32", CatalogRow("scan1", 1))), None),
            Event(2, Some(Image([1679, 1475], "uint32", CatalogRow("scan1", 2))), None)],
           Running(PollState(Some("scan1"), [0, 1, 2])))
  {
    var run := Run("scan1", 1475, 1679, "uint32", 3, [1679, 1475], "uint32", false);
    var c := [[run]];
    assert c[1..] == [];
    assert PendingFrames([], 3) == [0, 1, 2] by {
      PendingAfterPrefix(0, 3);
      assert Range(0, 3) == [0, 1, 2];
    }
    var img := (u: int) => Image([1679, 1475], "uint32", CatalogRow("scan1", u));
    assert SendRows(run, [2], [0, 1]) == Sent([Event(2, Some(img(2)), None)], [0, 1, 2], None);
    assert SendRows(run, [1, 2], [0]).sent == [0, 1, 2];
    assert SendRows(run, [0, 1, 2], []).sent == [0, 1, 2];
  }

  /** Line 79 as written never skips a fully sent run: with all three rows sent, the pass asks
      for row 3 of a three-row array and raises, where the corrected pass does nothing. */
  lemma AsWrittenRescansCompleteRun()
    ensures var run := Run("scan1", 1475, 1679, "uint32", 3, [1679, 1475], "uint32", false);
      var st := PollState(Some("scan1"), [0, 1, 2]);
      && Cycle(AsWritten, [run], st) == Trace([], Died(IndexError))
      && Cycle(Corrected, [run], st) == Trace([], Running(st))
  {
    var sent := [0, 1, 2];
    MinMaxSpec(sent);
    assert Min(sent) == 0 && Max(sent) == 2;
    assert Range(0, 3) == sent;
    MissingAllSent(sent, sent);
    assert Range(3, 4) == [3];
    assert Gaps(sent) == [] && Extras(sent, 3) == [3];
    assert Gaps(sent) + Extras(sent, 3) == [3];
  }

  /** The inclusive upper bound of line 119: whenever the sent frames stop short of the frame
      count, the list includes the frame count itself, which is not a row of the array. */
  lemma UnsentIncludesFrameCount(sent: seq<int>, run: Run)
    requires |sent| > 0 && Max(sent) < run.frameCount
    ensures run.frameCount as int in UnsentFrameNumbers(sent, run.frameCount).value
    ensures RowImage(run, run.frameCount) == Raised(IndexError)
  {
    var extras := Extras(sent, run.frameCount);
    assert extras[run.frameCount - Max(sent) - 1] == run.frameCount;
    assert UnsentFrameNumbers(sent, run.frameCount).value == Gaps(sent) + extras;
  }

  // ---------------------------------------------------------------------------------------
  // Container helpers and `patch_tiled_frame`
  // ---------------------------------------------------------------------------------------

  /** `get_root_container`: the "runs" container under the root, created if absent. */
  method GetRootContainer(client: CatalogTree.Tree) returns (root: CatalogTree.Path)
    requires client.Valid()
    modifies client
    ensures client.Valid()
    ensures root == [RunsContainerName] && root in client.nodes
    ensures client.nodes == CatalogTree.WithContainer(old(client.nodes), [], RunsContainerName)
  {
    root := client.GetOrCreateContainer([], RunsContainerName);
  }

  /** The name of a run's container: `run_name + "_" + run_id`. */
  function RunContainerName(runName: string, runId: string): string
  {
    runName + "_" + runId
  }

  /** `get_run_container`: the child named after the start message's run name and id, created
      only if absent; a missing name or id makes the concatenation raise `TypeError`. */
  method GetRunContainer(runs: CatalogTree.Tree, parent: CatalogTree.Path, start: Msg)
    returns (r: Result<CatalogTree.Path>)
    requires runs.Valid() && parent in runs.nodes && runs.nodes[parent] == CatalogTree.Container
    requires start.Start?
    modifies runs
    ensures runs.Valid()
    ensures start.runName.None? || start.runId.None? ==>
      r == Raised(TypeError) && runs.nodes == old(runs.nodes)
    ensures start.runName.Some? && start.runId.Some? ==>
      var name := RunContainerName(start.runName.value, start.runId.value);
      && r == Ok(parent + [name]) && parent + [name] in runs.nodes
      && runs.nodes == CatalogTree.WithContainer(old(runs.nodes), parent, name)
  {
    if start.runName.None? || start.runId.None? {
      return Raised(TypeError);
    }
    var child := runs.GetOrCreateContainer(parent, RunContainerName(start.runName.value, start.runId.value));
    r := Ok(child);
  }

  /** The rows of an array node after Tiled's `patch(block, offset=(offset,), extend=True)`:
      the block overwrites the rows from `offset` on, growing the array where it runs past
      the end, and every other row is kept. */
  function Patched<T>(rows: seq<T>, block: seq<T>, offset: nat): (r: seq<T>)
    requires offset <= |rows|
    ensures |r| == if offset + |block| > |rows| then offset + |block| else |rows|
    ensures r[..offset] == rows[..offset]
    ensures r[offset..offset + |block|] == block
    ensures offset + |block| < |rows| ==> r[offset + |block|..] == rows[offset + |block|..]
  {
    var tail := if offset + |block| < |rows| then rows[offset + |block|..] else [];
    var r := rows[..offset] + block + tail;
    assert r[..offset] == rows[..offset];
    assert r[offset..offset + |block|] == block;
    assert r[offset + |block|..] == tail;
    r
  }

  /** An array node as a sequence of rows along its first dimension. */
  class ArrayClient<T> {
    var rows: seq<T>

    constructor (initial: seq<T>)
      ensures rows == initial
    {
      rows := initial;
    }

    method Patch(block: seq<T>, offset: nat)
      requires offset <= |rows|
      modifies this
      ensures rows == Patched(old(rows), block, offset)
    {
      rows := Patched(rows, block, offset);
    }
  }

  /** `patch_tiled_frame`: one new row, written at the offset equal to the current first
      dimension, so the node grows by exactly that row at its end. */
  method PatchTiledFrame<T>(node: ArrayClient<T>, row: T)
    modifies node
    ensures node.rows == old(node.rows) + [row]
  {
    var offset := |node.rows|;
    node.Patch([row], offset);
    assert node.rows[..offset] == old(node.rows);
    assert node.rows[offset..] == [row];
    assert node.rows == node.rows[..offset] + node.rows[offset..];
  }
}
