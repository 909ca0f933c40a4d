/**
 * `TiledClientListener`: follows Tiled's subscription events (a new run, its "streams"
 * namespace, a new stream, a node in a stream), optionally logs each event to a numbered
 * JSON file in a per-run folder, and turns new runs and the target node's events into
 * Start and Event messages for its operator.
 */
module TiledWebsocket {
  import opened Wrappers
  import opened Json
  import opened PyStrings
  import opened Messages

  // ---------------------------------------------------------------------------------------
  // Event logs
  // ---------------------------------------------------------------------------------------

  /** One JSON file written by `log_message_to_json`: where it went, and the event name,
      sequence number and callback data it records (timestamp and segments not modelled). */
  datatype LogFile = LogFile(path: string, eventName: string, sequence: nat, callbackData: Dict)

  /** The logging state of the listener: the current run folder, the per-event counters and
      the files written so far. */
  datatype LogState = LogState(runDir: Option<string>, counters: map<string, nat>, written: seq<LogFile>)

  /** `os.path.join(a, b)` on POSIX paths. */
  function PathJoin(a: string, b: string): string
  {
    if StartsWith(b, "/") then b
    else if a == "" || EndsWith(a, "/") then a + b
    else a + "/" + b
  }

  /** Joining onto the same directory tells relative names apart. */
  lemma PathJoinInjective(a: string, b1: string, b2: string)
    requires !StartsWith(b1, "/") && !StartsWith(b2, "/")
    ensures PathJoin(a, b1) == PathJoin(a, b2) ==> b1 == b2
  {
    if PathJoin(a, b1) == PathJoin(a, b2) {
      var pre := if a == "" || EndsWith(a, "/") then a else a + "/";
      assert PathJoin(a, b1) == pre + b1 && PathJoin(a, b2) == pre + b2;
      assert b1 == (pre + b1)[|pre|..];
    }
  }

  /** The folder `create_run_folder(run_id)` makes: `log_dir/run_<run_id>`. */
  function RunFolder(logDir: string, runId: string): string
  {
    PathJoin(logDir, "run_" + runId)
  }

  /** The file name of the `sequence`-th event `eventName` of a run. */
  function LogFileName(eventName: string, sequence: nat): string
  {
    eventName + "_" + Format04(sequence) + ".json"
  }

  /** A name, an underscore and digits split back at that underscore: the digits contain
      none, so the last underscore is the separator. */
  lemma SplitAtUnderscore(a: string, f: string, p: string, q: string)
    requires IsDigits(f) && IsDigits(q) && a + "_" + f == p + "_" + q
    ensures a == p && f == q
  {
    var x := a + "_" + f;
    assert x[|a|] == '_' && x[|p|] == '_';
    assert forall k :: |a| < k < |x| ==> IsDigit(x[k]) by {
      forall k | |a| < k < |x| ensures IsDigit(x[k]) {
        assert x[k] == f[k - |a| - 1];
      }
    }
    assert forall k :: |p| < k < |x| ==> IsDigit(x[k]) by {
      forall k | |p| < k < |x| ensures IsDigit(x[k]) {
        assert x[k] == q[k - |p| - 1];
      }
    }
    assert |p| == |a|;
    assert a == x[..|a|] && p == x[..|p|];
    assert f == x[|a| + 1..] && q == x[|p| + 1..];
  }

  /** Distinct (event name, sequence number) pairs get distinct file names, whatever the
      event names are. */
  lemma LogFileNameInjective(a: string, m: nat, b: string, n: nat)
    ensures LogFileName(a, m) == LogFileName(b, n) ==> a == b && m == n
  {
    if LogFileName(a, m) == LogFileName(b, n) {
      Format04Value(m);
      Format04Value(n);
      var x, y := a + "_" + Format04(m), b + "_" + Format04(n);
      assert LogFileName(a, m) == x + ".json" && LogFileName(b, n) == y + ".json";
      assert |x| == |y|;
      assert x == (x + ".json")[..|x|] && y == (y + ".json")[..|y|];
      SplitAtUnderscore(a, Format04(m), b, Format04(n));
    }
  }

  /** `event_counters[name]` of a `defaultdict(int)`. */
  function Counter(counters: map<string, nat>, name: string): nat
  {
    if name in counters then counters[name] else 0
  }

  /** `event_counters[name] += 1`. */
  function Bump(counters: map<string, nat>, name: string): (r: map<string, nat>)
    ensures Counter(r, name) == Counter(counters, name) + 1
    ensures forall n :: n != name ==> Counter(r, n) == Counter(counters, n)
  {
    counters[name := Counter(counters, name) + 1]
  }

  /** The counters after counting `names` in order. */
  function BumpAll(counters: map<string, nat>, names: seq<string>): map<string, nat>
  {
    if |names| == 0 then counters else Bump(BumpAll(counters, names[..|names| - 1]), names[|names| - 1])
  }

  /** How often `n` occurs in `names`. */
  function Occurrences(names: seq<string>, n: string): nat
  {
    if |names| == 0 then 0
    else Occurrences(names[..|names| - 1], n) + (if names[|names| - 1] == n then 1 else 0)
  }

  /** Each counter counts the events of its name. */
  lemma {:induction false} BumpAllCounts(counters: map<string, nat>, names: seq<string>, n: string)
    ensures Counter(BumpAll(counters, names), n) == Counter(counters, n) + Occurrences(names, n)
  {
    if |names| > 0 {
      BumpAllCounts(counters, names[..|names| - 1], n);
    }
  }

  /** A stretch without `n` adds no occurrence of `n`. */
  lemma {:induction false} OccurrencesGap(names: seq<string>, lo: nat, hi: nat, n: string)
    requires lo <= hi <= |names|
    requires forall k :: lo <= k < hi ==> names[k] != n
    ensures Occurrences(names[..hi], n) == Occurrences(names[..lo], n)
    decreases hi - lo
  {
    if lo < hi {
      OccurrencesGap(names, lo, hi - 1, n);
      assert names[..hi][..hi - 1] == names[..hi - 1];
    }
  }

  /** Occurrences only grow along a sequence. */
  lemma {:induction false} OccurrencesGrow(names: seq<string>, lo: nat, hi: nat, n: string)
    requires lo <= hi <= |names|
    ensures Occurrences(names[..lo], n) <= Occurrences(names[..hi], n)
    decreases hi - lo
  {
    if lo < hi {
      OccurrencesGrow(names, lo, hi - 1, n);
      assert names[..hi][..hi - 1] == names[..hi - 1];
    }
  }

  /** The sequence number the `i`-th logged event of a run gets. */
  function SequenceNumber(names: seq<string>, i: nat): nat
    requires i < |names|
  {
    Occurrences(names[..i + 1], names[i])
  }

  /** Within a run, the first event of each name is number 1, and the next event of the same
      name is the next number. */
  lemma SequenceNumbersConsecutive(names: seq<string>, i: nat, j: nat)
    requires i < j < |names| && names[i] == names[j]
    requires forall k :: i < k < j ==> names[k] != names[j]
    ensures SequenceNumber(names, j) == SequenceNumber(names, i) + 1
  {
    OccurrencesGap(names, i + 1, j, names[j]);
    assert names[..j + 1][..j] == names[..j];
  }

  lemma SequenceNumberFirst(names: seq<string>, i: nat)
    requires i < |names| && forall k :: 0 <= k < i ==> names[k] != names[i]
    ensures SequenceNumber(names, i) == 1
  {
    OccurrencesGap(names, 0, i, names[i]);
    assert names[..i + 1][..i] == names[..i];
  }

  /** Two events of the same name never share a number. */
  lemma SequenceNumbersIncrease(names: seq<string>, i: nat, j: nat)
    requires i < j < |names| && names[i] == names[j]
    ensures SequenceNumber(names, i) < SequenceNumber(names, j)
  {
    OccurrencesGrow(names, i + 1, j, names[j]);
    assert names[..j + 1][..j] == names[..j];
  }

  /** Lines 222-252: nothing without a run folder; otherwise the event's counter goes up by
      one and, unless writing fails (the error is logged and swallowed), a file named after
      the new count is written to the run folder. */
  function LogStep(st: LogState, eventName: string, callbackData: Dict, writeOk: bool): LogState
  {
    match st.runDir
    case None => st
    case Some(dir) =>
      var number := Counter(st.counters, eventName) + 1;
      LogState(st.runDir, Bump(st.counters, eventName),
               st.written + if writeOk then [LogFile(PathJoin(dir, LogFileName(eventName, number)), eventName, number, callbackData)] else [])
  }

  /** One `log_message_to_json` call. */
  datatype LogCall = LogCall(eventName: string, callbackData: Dict, writeOk: bool)

  function LogAll(st: LogState, calls: seq<LogCall>): LogState
  {
    if |calls| == 0 then st
    else var last := calls[|calls| - 1]; LogStep(LogAll(st, calls[..|calls| - 1]), last.eventName, last.callbackData, last.writeOk)
  }

  function Names(calls: seq<LogCall>): (names: seq<string>)
    ensures |names| == |calls| && forall i :: 0 <= i < |calls| ==> names[i] == calls[i].eventName
  {
    seq(|calls|, i requires 0 <= i < |calls| => calls[i].eventName)
  }

  /** The files a run logs when every write succeeds: one per call, in order, numbered per
      event name, each in the run folder. */
  function RunFiles(dir: string, calls: seq<LogCall>): seq<LogFile>
  {
    seq(|calls|, i requires 0 <= i < |calls| => RunFile(dir, calls, i))
  }

  /** The file of the `i`-th call of a run. */
  function RunFile(dir: string, calls: seq<LogCall>, i: nat): LogFile
    requires i < |calls|
  {
    var names := Names(calls);
    var n := SequenceNumber(names, i);
    LogFile(PathJoin(dir, LogFileName(names[i], n)), names[i], n, calls[i].callbackData)
  }

  /** A later call does not change the file of an earlier one. */
  lemma RunFilePrefix(dir: string, calls: seq<LogCall>, k: nat, i: nat)
    requires i < k <= |calls|
    ensures RunFile(dir, calls[..k], i) == RunFile(dir, calls, i)
  {
    var names, pre := Names(calls), Names(calls[..k]);
    assert pre == names[..k];
    assert pre[..i + 1] == names[..i + 1];
  }

  lemma RunFilesSnoc(dir: string, calls: seq<LogCall>)
    requires |calls| > 0
    ensures RunFiles(dir, calls) == RunFiles(dir, calls[..|calls| - 1]) + [RunFile(dir, calls, |calls| - 1)]
  {
    var k := |calls| - 1;
    forall i | 0 <= i < k
      ensures RunFiles(dir, calls[..k])[i] == RunFiles(dir, calls)[i]
    {
      RunFilePrefix(dir, calls, k, i);
    }
  }

  /** Logging keeps the run folder, and the counters count the events, failed writes
      included. */
  lemma {:induction false} LogAllCounts(st: LogState, calls: seq<LogCall>)
    requires st.runDir.Some?
    ensures LogAll(st, calls).runDir == st.runDir
    ensures LogAll(st, calls).counters == BumpAll(st.counters, Names(calls))
  {
    if |calls| > 0 {
      var init := calls[..|calls| - 1];
      LogAllCounts(st, init);
      assert Names(init) == Names(calls)[..|calls| - 1];
    }
  }

  /** Logging after `create_run_folder` with every write succeeding: the run gets exactly
      `RunFiles`, one file per event in order. */
  lemma {:induction false} LogRun(dir: string, written: seq<LogFile>, calls: seq<LogCall>)
    requires forall i :: 0 <= i < |calls| ==> calls[i].writeOk
    ensures LogAll(LogState(Some(dir), map[], written), calls).written == written + RunFiles(dir, calls)
  {
    if |calls| > 0 {
      var st := LogState(Some(dir), map[], written);
      var init, last := calls[..|calls| - 1], calls[|calls| - 1];
      assert forall i :: 0 <= i < |init| ==> init[i].writeOk by {
        forall i | 0 <= i < |init| ensures init[i].writeOk {
          assert init[i] == calls[i];
        }
      }
      LogRun(dir, written, init);
      LogAllCounts(st, init);
      var names := Names(calls);
      assert Names(init) == names[..|calls| - 1];
      BumpAllCounts(map[], Names(init), last.eventName);
      assert names[..|calls|] == names;
      var n := SequenceNumber(names, |calls| - 1);
      var prev := LogAll(st, init);
      var file := RunFile(dir, calls, |calls| - 1);
      assert Counter(prev.counters, last.eventName) + 1 == n;
      assert file == LogFile(PathJoin(dir, LogFileName(last.eventName, n)), last.eventName, n, last.callbackData);
      assert last.writeOk;
      calc {
        LogAll(st, calls).written;
        LogStep(prev, last.eventName, last.callbackData, true).written;
        { LogStepWrites(prev, dir, last.eventName, last.callbackData, n); }
        prev.written + [file];
        (written + RunFiles(dir, init)) + [file];
        written + (RunFiles(dir, init) + [file]);
        { RunFilesSnoc(dir, calls); }
        written + RunFiles(dir, calls);
      }
    }
  }

  /** A successful write in the run folder `dir` adds the file numbered `n`, one past the
      event's counter. */
  lemma LogStepWrites(st: LogState, dir: string, eventName: string, callbackData: Dict, n: int)
    requires st.runDir == Some(dir) && n == Counter(st.counters, eventName) + 1
    ensures LogStep(st, eventName, callbackData, true).written
      == st.written + [LogFile(PathJoin(dir, LogFileName(eventName, n)), eventName, n, callbackData)]
  {
  }

  lemma NoLeadingSlash(name: string, rest: string)
    requires !StartsWith(name, "/")
    ensures !StartsWith(name + "_" + rest, "/")
  {
    var s := name + "_" + rest;
    if |name| > 0 {
      assert name[..1] == [name[0]] && s[..1] == [name[0]];
    } else {
      assert s[..1] == "_";
    }
  }

  /** No file of a run overwrites another: the paths `RunFiles` lists are pairwise distinct,
      as long as no event name starts with "/". */
  lemma RunFilesDistinct(dir: string, calls: seq<LogCall>, i: nat, j: nat)
    requires forall k :: 0 <= k < |calls| ==> !StartsWith(calls[k].eventName, "/")
    requires i < j < |calls|
    ensures RunFiles(dir, calls)[i].path != RunFiles(dir, calls)[j].path
  {
    var names := Names(calls);
    var a, b := LogFileName(names[i], SequenceNumber(names, i)), LogFileName(names[j], SequenceNumber(names, j));
    NoLeadingSlash(names[i], Format04(SequenceNumber(names, i)) + ".json");
    NoLeadingSlash(names[j], Format04(SequenceNumber(names, j)) + ".json");
    assert a == names[i] + "_" + (Format04(SequenceNumber(names, i)) + ".json");
    assert b == names[j] + "_" + (Format04(SequenceNumber(names, j)) + ".json");
    PathJoinInjective(dir, a, b);
    LogFileNameInjective(names[i], SequenceNumber(names, i), names[j], SequenceNumber(names, j));
    if names[i] == names[j] {
      SequenceNumbersIncrease(names, i, j);
    }
  }

  // ---------------------------------------------------------------------------------------
  // Messages to the operator
  // ---------------------------------------------------------------------------------------

  /** `publish_start(data)`: run name and run id are both the event's key, the frame size is
      unknown (0 by 0, no data type), the URL is the client's. A missing key is a `KeyError`;
      a key that is not a string fails the message's validation. */
  function StartOf(data: Dict, clientUri: string): (r: Result<Msg>)
    ensures r == Raised(KeyError) <==> "key" !in data
    ensures r.Ok? <==> "key" in data && data["key"].JStr?
    ensures r.Ok? ==> var k := data["key"].s;
      r.value == Start(0, 0, "", Some(clientUri), Some(k), Some(k))
  {
    if "key" !in data then Raised(KeyError)
    else match data["key"]
      case JStr(k) => Ok(Start(0, 0, "", Some(clientUri), Some(k), Some(k)))
      case _ => Raised(ValueError)
  }

  /** `publish_event(data)`: the frame number is the event's sequence, 0 when absent; there
      is no image and the URL is empty. */
  function EventOf(data: Dict): (r: Result<Msg>)
    ensures "sequence" !in data ==> r == Ok(Event(0, None, Some("")))
    ensures r.Ok? <==> "sequence" !in data || data["sequence"].JInt?
    ensures "sequence" in data && data["sequence"].JInt? ==> r == Ok(Event(data["sequence"].i, None, Some("")))
  {
    match GetOr(data, "sequence", JInt(0))
    case JInt(i) => Ok(Event(i, None, Some("")))
    case _ => Raised(ValueError)
  }

  /** The start message opens a run for a consumer that had none. */
  lemma StartOpensRun(data: Dict, clientUri: string)
    requires StartOf(data, clientUri).Ok?
    ensures Next(Idle, StartOf(data, clientUri).value) == Open(0)
  {
  }

  /** What `on_node_in_stream` publishes: nothing unless the node's key is the target. */
  function NodeEvent(data: Dict, target: Option<string>): (r: Result<Option<Msg>>)
    ensures "key" !in data ==> r == Raised(KeyError)
    ensures "key" in data && target.None? ==> r == Raised(AttributeError)
    ensures "key" in data && target.Some? && data["key"] != JStr(target.value) ==> r == Ok(None)
    ensures "key" in data && target.Some? && data["key"] == JStr(target.value) ==>
      r == match EventOf(data) case Ok(m) => Ok(Some(m)) case Raised(e) => Raised(e)
  {
    if "key" !in data then Raised(KeyError)
    else if target.None? then Raised(AttributeError)
    else if data["key"] != JStr(target.value) then Ok(None)
    else match EventOf(data) case Ok(m) => Ok(Some(m)) case Raised(e) => Raised(e)
  }

  class TiledClientListener {
    const createRunLogs: bool
    const logDir: string
    /** `tiled_client.uri`. */
    const clientUri: string
    /** `self.target`: no code sets it, so it stays `None` (the attribute is missing) unless a
        caller assigns one. */
    const target: Option<string>
    var currentRunDir: Option<string>
    var eventCounters: map<string, nat>
    /** The log files written, in order. */
    var written: seq<LogFile>
    /** The messages handed to `operator.process`, in order. */
    var sent: seq<Msg>

    function Log(): LogState
      reads this
    {
      LogState(currentRunDir, eventCounters, written)
    }

    /** `__init__` (creating `log_dir` on disk is not modelled). */
    constructor (createRunLogs: bool, logDir: string, clientUri: string, target: Option<string>)
      ensures this.createRunLogs == createRunLogs && this.logDir == logDir && this.clientUri == clientUri
      ensures this.target == target
      ensures Log() == LogState(None, map[], []) && sent == []
    {
      this.createRunLogs := createRunLogs;
      this.logDir := logDir;
      this.clientUri := clientUri;
      this.target := target;
      currentRunDir := None;
      eventCounters := map[];
      written := [];
      sent := [];
    }

    /** `create_run_folder(run_id)`: the new folder becomes current and every counter starts
        again from zero. */
    method CreateRunFolder(runId: string) returns (folder: string)
      modifies this
      ensures folder == RunFolder(logDir, runId)
      ensures Log() == LogState(Some(folder), map[], old(written)) && sent == old(sent)
    {
      folder := PathJoin(logDir, "run_" + runId);
      currentRunDir := Some(folder);
      eventCounters := map[];
    }

    /** `log_message_to_json(event_name, sub, callback_data)`; `writeOk` says whether writing
        the file succeeds. */
    method LogMessageToJson(eventName: string, callbackData: Dict, writeOk: bool)
      modifies this
      ensures Log() == LogStep(old(Log()), eventName, callbackData, writeOk) && sent == old(sent)
    {
      if currentRunDir.None? {
        return;
      }
      eventCounters := eventCounters[eventName := Counter(eventCounters, eventName) + 1];
      var sequence := eventCounters[eventName];
      var filename := eventName + "_" + Format04(sequence) + ".json";
      var filepath := PathJoin(currentRunDir.value, filename);
      if writeOk {
        written := written + [LogFile(filepath, eventName, sequence, callbackData)];
      }
    }

    /** `on_new_run`: with logging on, a fresh run folder named after the run's key and a log
        of this event; then the start message (subscribing to the run is not modelled). */
    method OnNewRun(data: Dict, writeOk: bool) returns (r: Result<()>)
      modifies this
      ensures "key" !in data ==> r == Raised(KeyError) && Log() == old(Log()) && sent == old(sent)
      ensures "key" in data && !data["key"].JStr? ==> r == Raised(ValueError) && Log() == old(Log()) && sent == old(sent)
      ensures "key" in data && data["key"].JStr? ==>
        && r == Ok(())
        && Log() == (if createRunLogs
                     then LogStep(LogState(Some(RunFolder(logDir, data["key"].s)), map[], old(written)), "on_new_run", data, writeOk)
                     else old(Log()))
        && sent == old(sent) + [StartOf(data, clientUri).value]
    {
      if "key" !in data {
        return Raised(KeyError);
      }
      if !data["key"].JStr? {
        return Raised(ValueError);
      }
      var uid := data["key"].s;
      if createRunLogs {
        var _ := CreateRunFolder(uid);
        LogMessageToJson("on_new_run", data, writeOk);
      }
      var start := StartOf(data, clientUri);
      sent := sent + [start.value];
      r := Ok(());
    }

    /** `on_streams_namespace`: only the log (the subscription to "streams" is not modelled). */
    method OnStreamsNamespace(data: Dict, writeOk: bool)
      modifies this
      ensures Log() == (if createRunLogs then LogStep(old(Log()), "on_streams_namespace", data, writeOk) else old(Log()))
      ensures sent == old(sent)
    {
      if createRunLogs {
        LogMessageToJson("on_streams_namespace", data, writeOk);
      }
    }

    /** `on_new_stream`: the stream's key is read first, then the event is logged. */
    method OnNewStream(data: Dict, writeOk: bool) returns (r: Result<()>)
      modifies this
      ensures "key" !in data ==> r == Raised(KeyError) && Log() == old(Log())
      ensures "key" in data ==>
        && r == Ok(())
        && Log() == (if createRunLogs then LogStep(old(Log()), "on_new_stream", data, writeOk) else old(Log()))
      ensures sent == old(sent)
    {
      if "key" !in data {
        return Raised(KeyError);
      }
      if createRunLogs {
        LogMessageToJson("on_new_stream", data, writeOk);
      }
      r := Ok(());
    }

    /** `on_node_in_stream`: logs the event, then publishes it only when the node's key is the
        target; comparing with a missing `self.target` raises `AttributeError`. */
    method OnNodeInStream(data: Dict, writeOk: bool) returns (r: Result<()>)
      modifies this
      ensures "key" !in data ==> r == Raised(KeyError) && Log() == old(Log()) && sent == old(sent)
      ensures "key" in data ==>
        && Log() == (if createRunLogs then LogStep(old(Log()), "on_node_in_stream", data, writeOk) else old(Log()))
        && match NodeEvent(data, target)
           case Raised(e) => r == Raised(e) && sent == old(sent)
           case Ok(m) => r == Ok(()) && sent == old(sent) + (if m.Some? then [m.value] else [])
    {
      if "key" !in data {
        return Raised(KeyError);
      }
      var key := data["key"];
      if createRunLogs {
        LogMessageToJson("on_node_in_stream", data, writeOk);
      }
      if target.None? {
        return Raised(AttributeError);
      }
      if key != JStr(target.value) {
        return Ok(());
      }
      var event := EventOf(data);
      if event.Raised? {
        return Raised(event.exc);
      }
      sent := sent + [event.value];
      r := Ok(());
    }
  }
}
