/**
 * `TiledDirectDataWebSocketListener`: messages of type "frame_data" carry a frame's pixels
 * directly; the listener forwards each frame of the current run once, and records a frame as
 * sent only after the operator processed it.
 */
module DirectWebsocket {
  import opened Wrappers
  import opened Json
  import opened Messages

  const FrameDataType := "frame_data"
  const ImageSuffix := "/primary/data/pil1M_image"

  /** The run the base listener is following: the `uid` of its start document, its URI, and
      how many entries it holds (a Tiled container is a mapping, falsy when empty). */
  datatype RunRef = RunRef(startUid: Json, uri: string, entries: nat)

  /** What `_handle_frame_data` does with one message. */
  datatype Verdict =
    | NotCurrentRun     // no current run, an empty one, or another run's frame
    | Duplicate         // the frame number was sent already
    | NoData            // the 'data' field is missing or falsy
    | ConvertFailed     // `_convert_data_to_array` raised
    | BadFrameNumber    // building the event rejected a frame number that is not an integer
    | Forward(frame: Json, event: Msg)

  /** The checks of lines 42-69, in order; `convert` is `_convert_data_to_array`, whose
      decoding is not modelled (`None` when it raises). */
  function Assess(run: Option<RunRef>, sent: seq<Json>, message: Dict, convert: (Json, Dict) -> Option<Image>): Verdict
  {
    var runId := Get(message, "run_id");
    var frame := GetOr(message, "frame_number", JInt(0));
    if run.None? || run.value.entries == 0 || run.value.startUid != runId then NotCurrentRun
    else if frame in sent then Duplicate
    else if !Truthy(Get(message, "data")) then NoData
    else
      match convert(Get(message, "data"), message)
      case None => ConvertFailed
      case Some(image) =>
        if !frame.JInt? then BadFrameNumber
        else Forward(frame, Event(frame.i, Some(image), Some(run.value.uri + ImageSuffix)))
  }

  ghost predicate NoDuplicates(s: seq<Json>)
  {
    forall i, j :: 0 <= i < j < |s| ==> s[i] != s[j]
  }

  /** A frame_data message is dropped without a `process` call unless it belongs to the
      current (non-empty) run, is not a frame already sent, and has data; one that passes
      every gate, and whose data converts and whose frame number is an integer, is forwarded. */
  lemma AssessGates(run: Option<RunRef>, sent: seq<Json>, message: Dict, convert: (Json, Dict) -> Option<Image>)
    ensures var v := Assess(run, sent, message, convert);
      && (v == NotCurrentRun <==> run.None? || run.value.entries == 0 || run.value.startUid != Get(message, "run_id"))
      && (v.Forward? ==>
            && run.Some? && run.value.startUid == Get(message, "run_id")
            && v.frame == GetOr(message, "frame_number", JInt(0)) && v.frame !in sent
            && Truthy(Get(message, "data"))
            && v.event == Event(v.frame.i, convert(Get(message, "data"), message), Some(run.value.uri + "/primary/data/pil1M_image")))
      && (GetOr(message, "frame_number", JInt(0)) in sent ==> !v.Forward?)
      && (v.Forward? <==>
            && run.Some? && run.value.entries > 0 && run.value.startUid == Get(message, "run_id")
            && GetOr(message, "frame_number", JInt(0)) !in sent
            && Truthy(Get(message, "data"))
            && convert(Get(message, "data"), message).Some?
            && GetOr(message, "frame_number", JInt(0)).JInt?)
  {
  }

  /** A frame that reached the operator and was recorded is a duplicate from then on; one whose
      processing raised is not recorded and is forwarded again when resent. */
  lemma DeliveryIsOnce(run: Option<RunRef>, sent: seq<Json>, message: Dict, convert: (Json, Dict) -> Option<Image>)
    requires Assess(run, sent, message, convert).Forward?
    ensures Assess(run, sent + [Assess(run, sent, message, convert).frame], message, convert) == Duplicate
  {
    var f := Assess(run, sent, message, convert).frame;
    assert f in sent + [f];
  }

  class DirectDataListener {
    var currentRun: Option<RunRef>
    /** `self.sent_frames`; an attribute that does not exist yet behaves as the empty list. */
    var sentFrames: seq<Json>
    /** Every event handed to `operator.process`, in order. */
    var processed: seq<Msg>
    /** Messages passed on to the base class's `_handle_message`. */
    var delegated: seq<Dict>

    ghost predicate Valid()
      reads this
    {
      NoDuplicates(sentFrames)
    }

    constructor (run: Option<RunRef>)
      ensures Valid()
      ensures currentRun == run && sentFrames == [] && processed == [] && delegated == []
    {
      currentRun, sentFrames, processed, delegated := run, [], [], [];
    }

    /** `_handle_frame_data`; `processRaises` says whether `operator.process` raises on this
        event. Every exception inside the `try` is logged and swallowed. */
    method HandleFrameData(message: Dict, convert: (Json, Dict) -> Option<Image>, processRaises: bool)
      requires Valid()
      modifies this
      ensures Valid()
      ensures var v := Assess(old(currentRun), old(sentFrames), message, convert);
        && currentRun == old(currentRun) && delegated == old(delegated)
        && processed == old(processed) + (if v.Forward? then [v.event] else [])
        && sentFrames == old(sentFrames) + (if v.Forward? && !processRaises then [v.frame] else [])
    {
      var v := Assess(currentRun, sentFrames, message, convert);
      if !v.Forward? {
        return;
      }
      processed := processed + [v.event];
      if processRaises {
        return;
      }
      sentFrames := sentFrames + [v.frame];
    }

    /** `_handle_message`: frame_data messages go to the frame handler, all others to the base
        class, whose handling is not modelled. */
    method HandleMessage(message: Dict, convert: (Json, Dict) -> Option<Image>, processRaises: bool)
      requires Valid()
      modifies this
      ensures Valid()
      ensures Get(message, "type") != JStr(FrameDataType) ==>
        && delegated == old(delegated) + [message]
        && currentRun == old(currentRun) && sentFrames == old(sentFrames) && processed == old(processed)
      ensures Get(message, "type") == JStr(FrameDataType) ==>
        var v := Assess(old(currentRun), old(sentFrames), message, convert);
        && currentRun == old(currentRun) && delegated == old(delegated)
        && processed == old(processed) + (if v.Forward? then [v.event] else [])
        && sentFrames == old(sentFrames) + (if v.Forward? && !processRaises then [v.frame] else [])
    {
      if Get(message, "type") == JStr(FrameDataType) {
        HandleFrameData(message, convert, processRaises);
      } else {
        delegated := delegated + [message];
      }
    }
  }
}
