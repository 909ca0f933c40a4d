/**
 * The zmq transport of SAS messages. `ZMQFrameListener` decodes every frame it receives and
 * hands Start, raw Event and Stop messages to its operator, one at a time and in the order
 * received, skipping anything else; `ZMQFramePublisher` sends exactly those three kinds.
 * msgpack packing is not modelled: a frame is the dictionary it packs.
 */
module ZmqDispatch {
  import opened Wrappers
  import opened Json

  /** A message of one of the schema classes, holding its fields; any other `SASMessage`
      subclass is `OtherMessage`. */
  datatype SasMessage =
    | SASStart(fields: Dict)
    | SASRawEvent(fields: Dict)
    | SASStop(fields: Dict)
    | OtherMessage(className: string, fields: Dict)

  /** The `msg_type` each class is received under (lines 38-50). */
  function TypeTag(m: SasMessage): Option<string>
  {
    match m
    case SASStart(_) => Some("start")
    case SASRawEvent(_) => Some("event")
    case SASStop(_) => Some("stop")
    case OtherMessage(_, _) => None
  }

  /** One received frame (`None` when it does not unpack to a map, so that `.get` raises):
      the message built from it when its `msg_type` is known and the schema accepts the
      fields, `None` when the listener skips it. `valid` is the schema's validation. */
  function Decode(frame: Option<Dict>, valid: SasMessage -> bool): Option<SasMessage>
  {
    match frame
    case None => None
    case Some(d) =>
      var t := Get(d, "msg_type");
      var m := if t == JStr("start") then Some(SASStart(d))
               else if t == JStr("event") then Some(SASRawEvent(d))
               else if t == JStr("stop") then Some(SASStop(d))
               else None;
      if m.Some? && valid(m.value) then m else None
  }

  /** A frame is handed on exactly when it is a map whose `msg_type` is that of one of the
      three classes and the fields validate; the message is of the class the type names and
      holds the frame's fields. */
  lemma DecodeSpec(frame: Option<Dict>, valid: SasMessage -> bool)
    ensures var r := Decode(frame, valid);
      && (r.Some? <==> frame.Some? && (exists m :: m in KnownClasses(frame.value) && JStr(TypeTag(m).value) == Get(frame.value, "msg_type") && valid(m)))
      && (r.Some? ==> r.value.fields == frame.value && TypeTag(r.value).Some? && Get(frame.value, "msg_type") == JStr(TypeTag(r.value).value))
  {
    if frame.Some? {
      var d := frame.value;
      var t := Get(d, "msg_type");
      if Decode(frame, valid).Some? {
        var m := Decode(frame, valid).value;
        assert m in KnownClasses(d);
      }
    }
  }

  /** The three classes the listener builds, over the fields `d`. */
  function KnownClasses(d: Dict): seq<SasMessage>
  {
    [SASStart(d), SASRawEvent(d), SASStop(d)]
  }

  /** What the operator receives from the frames `frames`, in order. */
  function Dispatched(frames: seq<Option<Dict>>, valid: SasMessage -> bool): seq<SasMessage>
  {
    if |frames| == 0 then []
    else
      Dispatched(frames[..|frames| - 1], valid)
      + match Decode(frames[|frames| - 1], valid) case None => [] case Some(m) => [m]
  }

  /** Receiving in two stretches hands on what each stretch hands on, in that order. */
  lemma {:induction false} DispatchedConcat(a: seq<Option<Dict>>, b: seq<Option<Dict>>, valid: SasMessage -> bool)
    ensures Dispatched(a + b, valid) == Dispatched(a, valid) + Dispatched(b, valid)
    decreases |b|
  {
    if |b| == 0 {
      assert a + b == a;
    } else {
      var init := b[..|b| - 1];
      assert (a + b)[..|a + b| - 1] == a + init;
      DispatchedConcat(a, init, valid);
    }
  }

  /** The operator sees exactly the frames that decode, in receive order: an increasing
      choice of frame positions whose decoded messages are the dispatched ones, and every
      frame left out is skipped. */
  lemma {:induction false} DispatchedIndices(frames: seq<Option<Dict>>, valid: SasMessage -> bool) returns (idx: seq<nat>)
    ensures |idx| == |Dispatched(frames, valid)|
    ensures forall k :: 0 <= k < |idx| ==> idx[k] < |frames| && Decode(frames[idx[k]], valid) == Some(Dispatched(frames, valid)[k])
    ensures forall k, l :: 0 <= k < l < |idx| ==> idx[k] < idx[l]
    ensures forall i :: 0 <= i < |frames| && i !in idx ==> Decode(frames[i], valid).None?
  {
    if |frames| == 0 {
      return [];
    }
    var n := |frames| - 1;
    var init := frames[..n];
    var pre := DispatchedIndices(init, valid);
    var d := Dispatched(init, valid);
    assert forall i :: 0 <= i < n ==> frames[i] == init[i];
    match Decode(frames[n], valid)
    case None =>
      idx := pre;
      assert Dispatched(frames, valid) == d;
      forall k | 0 <= k < |idx|
        ensures idx[k] < |frames| && Decode(frames[idx[k]], valid) == Some(Dispatched(frames, valid)[k])
      {
        assert frames[pre[k]] == init[pre[k]];
      }
      forall i | 0 <= i < |frames| && i !in idx
        ensures Decode(frames[i], valid).None?
      {
        if i < n {
          assert frames[i] == init[i];
        }
      }
    case Some(m) =>
      idx := pre + [n];
      assert Dispatched(frames, valid) == d + [m];
      forall k | 0 <= k < |idx|
        ensures idx[k] < |frames| && Decode(frames[idx[k]], valid) == Some(Dispatched(frames, valid)[k])
      {
        if k < |pre| {
          assert idx[k] == pre[k] && frames[pre[k]] == init[pre[k]];
        }
      }
      forall k, l | 0 <= k < l < |idx|
        ensures idx[k] < idx[l]
      {
        if l == |pre| {
          assert idx[k] == pre[k] < n;
        }
      }
      forall i | 0 <= i < |frames| && i !in idx
        ensures Decode(frames[i], valid).None?
      {
        assert i != n && i !in pre;
        assert frames[i] == init[i];
      }
  }

  /** `ZMQFramePublisher.publish`: Start, Stop and raw Event messages are sent as one frame
      each; any other class is only logged. */
  function Sendable(m: SasMessage): bool
  {
    m.SASStart? || m.SASStop? || m.SASRawEvent?
  }

  /** The frames the publisher sends for `ms`. */
  function Packed(ms: seq<SasMessage>): seq<Option<Dict>>
  {
    if |ms| == 0 then []
    else Packed(ms[..|ms| - 1]) + if Sendable(ms[|ms| - 1]) then [Some(ms[|ms| - 1].fields)] else []
  }

  /** A message carrying its class's `msg_type` and accepted by the schema. */
  predicate Tagged(m: SasMessage, valid: SasMessage -> bool)
  {
    TypeTag(m).Some? && Get(m.fields, "msg_type") == JStr(TypeTag(m).value) && valid(m)
  }

  /** Publisher and listener agree: a listener receiving what the publisher sent hands on
      exactly the sendable messages, unchanged and in order, when each carries its class's
      `msg_type` and validates. */
  lemma {:induction false} PublishThenReceive(ms: seq<SasMessage>, valid: SasMessage -> bool)
    requires forall k :: 0 <= k < |ms| && Sendable(ms[k]) ==> Tagged(ms[k], valid)
    ensures Dispatched(Packed(ms), valid) == Sendables(ms)
  {
    if |ms| > 0 {
      var init, m := ms[..|ms| - 1], ms[|ms| - 1];
      assert forall k :: 0 <= k < |init| ==> init[k] == ms[k];
      PublishThenReceive(init, valid);
      if Sendable(m) {
        assert Packed(ms) == Packed(init) + [Some(m.fields)];
        assert Sendables(ms) == Sendables(init) + [m];
        DecodeTagged(m, valid);
        DispatchedSnoc(Packed(init), Some(m.fields), valid);
      } else {
        assert Packed(ms) == Packed(init);
        assert Sendables(ms) == Sendables(init);
      }
    }
  }

  /** Receiving one more frame hands on what that frame decodes to, if anything. */
  lemma DispatchedSnoc(a: seq<Option<Dict>>, f: Option<Dict>, valid: SasMessage -> bool)
    ensures Dispatched(a + [f], valid) == Dispatched(a, valid) + match Decode(f, valid) case None => [] case Some(m) => [m]
  {
    assert (a + [f])[..|a|] == a;
  }

  /** A tagged, valid message survives packing and decoding unchanged. */
  lemma DecodeTagged(m: SasMessage, valid: SasMessage -> bool)
    requires Sendable(m) && Tagged(m, valid)
    ensures Decode(Some(m.fields), valid) == Some(m)
  {
  }

  /** The sendable messages of `ms`, in order. */
  function Sendables(ms: seq<SasMessage>): (r: seq<SasMessage>)
    ensures forall m :: m in r ==> Sendable(m) && m in ms
    ensures forall m :: m in ms && Sendable(m) ==> m in r
  {
    if |ms| == 0 then []
    else Sendables(ms[..|ms| - 1]) + if Sendable(ms[|ms| - 1]) then [ms[|ms| - 1]] else []
  }

  class ZMQFrameListener {
    /** The messages passed to `operator.process`, in order; whether `process` raises does
        not matter, the exception is logged and the loop goes on. */
    var processed: seq<SasMessage>

    constructor ()
      ensures processed == []
    {
      processed := [];
    }

    /** The receive loop of `start`, over the frames that arrive. */
    method Start(frames: seq<Option<Dict>>, valid: SasMessage -> bool)
      modifies this
      ensures processed == old(processed) + Dispatched(frames, valid)
    {
      var i := 0;
      while i < |frames|
        invariant 0 <= i <= |frames|
        invariant processed == old(processed) + Dispatched(frames[..i], valid)
      {
        assert frames[..i + 1][..i] == frames[..i];
        var frame := frames[i];
        i := i + 1;
        if frame.None? {
          continue;
        }
        var message := frame.value;
        var messageType := Get(message, "msg_type");
        var built: SasMessage;
        if messageType == JStr("start") {
          built := SASStart(message);
        } else if messageType == JStr("event") {
          built := SASRawEvent(message);
        } else if messageType == JStr("stop") {
          built := SASStop(message);
        } else {
          continue;
        }
        if !valid(built) {
          continue;
        }
        processed := processed + [built];
      }
      assert frames[..i] == frames;
    }
  }

  class ZMQFramePublisher {
    /** The frames sent on the socket, in order. */
    var sent: seq<Option<Dict>>

    constructor ()
      ensures sent == []
    {
      sent := [];
    }

    method Publish(message: SasMessage)
      modifies this
      ensures sent == old(sent) + if Sendable(message) then [Some(message.fields)] else []
    {
      if message.SASStart? || message.SASStop? {
        sent := sent + [Some(message.fields)];
        return;
      }
      if message.SASRawEvent? {
        sent := sent + [Some(message.fields)];
      }
    }
  }
}
