# arroyosas in Dafny

This project models the streaming core of arroyosas, the pipeline that carries SAXS/GISAXS
detector frames from a Tiled catalog, zmq sockets or a websocket to the operators that reduce
them. A run is a stream of Start, frame Event and Stop messages. The modelled parts are:

- the Tiled poller and its catalog helpers (`arroyogisaxs/tiled.py`);
- the websocket listeners that subscribe to Tiled events or receive frames directly;
- the zmq listener and publisher;
- the ingestor that registers new frame files in Tiled, and the file watcher that feeds it;
- the simulators that replay a URL database, recorded Tiled events, or made-up frames;
- the `start` commands of the two websocket listeners;
- the frontend helpers that turn frame payloads into plot traces.

Each module follows one source file:

| module | file |
|---|---|
| `GisaxsTiled` (over `CatalogTree`) | `tiled.py` |
| `DbReplay` | `db_replay_sim_cli.py` |
| `EventReplay` | `tiled_event_sim_cli.py` |
| `TiledWebsocket` | `tiled_websocket.py` |
| `DirectWebsocket` | `tiled_direct_websocket.py` |
| `ZmqDispatch` | `zmq.py` |
| `Ingestor` | `ingestor.py` |
| `FileWatcher` | `tiled_file_watcher_cli.py` |
| `Simulators` | the three frame simulator commands |
| `WsCli` | the two listener commands |
| `PlotHelper` | `plotHelper.js` |

Shared modules:

- `Messages` holds the message records and the Start, Event*, Stop protocol a consumer expects.
- `Json` holds decoded payloads.
- `PyStrings` holds the Python string methods the code relies on: `find`, `split`, `join`,
  `replace`, `strip`, `isdigit`, `int`, `str` and `{:04d}`.
- `PySort` holds Python's stable `list.sort(key=...)`.
- `Wrappers` holds `Option`, and `Result` for a value or an uncaught Python exception.

The model keeps the source's form:

- Objects whose methods update their fields are classes. Examples: the listeners, the
  publishers, the Tiled catalog tree and the ingestor.
- Loops are methods proved against a specification function.
- The rest is functions and lemmas.

Things outside the model's reach are parameters:

- a websocket or zmq socket is the sequence of frames it delivers; for the two replay
  simulators it is also a predicate saying which send succeeds (elsewhere sends and
  `operator.process` are taken to succeed, as listed under "Left out");
- the Tiled server is a fetch function or a catalog listing per pass;
- a file system is a lookup function;
- the clock is the formatted time text.

## Model

| member | source | states |
|---|---|---|
| Messages.TrackFromAppend | src/arroyosas/app/frame_listener_sim_cli.py:35-67 | The protocol state after one more message is the previous state advanced by that message. |
| Messages.TrackFromConcat | src/arroyosas/app/frame_listener_sim_cli.py:35-67 | Consuming two stretches of messages is consuming the first, then the second from where it left off. |
| Messages.BrokenStaysBroken | src/arroyosas/app/frame_listener_sim_cli.py:35-67 | Once a consumer has seen a message out of protocol, no later message puts it back in a run. |
| Messages.EventsKeepRunOpen | src/arroyogisaxs/tiled.py:84-88 | Events numbered consecutively from an open run's count keep the run open and advance the count by their number. |
| Messages.CompleteRunIsClosed | src/_test/test_tiled_poller.py:34-39 | Start, events 0 .. k-1, then Stop(k) take an idle consumer back to idle, as in the test's message sequence. |
| CatalogTree.WithContainerFacts | src/arroyogisaxs/tiled.py:232-235 | Get-or-create adds at most the named child and never changes an existing node; a second get-or-create changes nothing. |
| CatalogTree.WithContainerWellFormed | src/arroyogisaxs/tiled.py:232-235 | Creating a container under a container keeps the catalog a tree. |
| CatalogTree.WithoutSubtreeWellFormed | src/arroyosas/tiled/ingestor.py:45-46 | Deleting a node removes exactly that node and everything under it, and keeps the catalog a tree. |
| CatalogTree.Tree.GetOrCreateContainer | src/arroyogisaxs/tiled.py:232-235 | `create_run_container`: returns the child path; the catalog gains that container only if it was absent. |
| CatalogTree.Tree.Delete | src/arroyosas/tiled/ingestor.py:45-46 | `delete(key)`: the catalog loses the subtree at the key and stays a tree. |
| CatalogTree.Tree.NewArray | src/arroyosas/tiled/ingestor.py:64-88 | `new(key=...)` on a free key adds exactly one array node there. |
| GisaxsTiled.MinMaxSpec | src/arroyogisaxs/tiled.py:115 | `min` and `max` of a non-empty list are members of it and bound every member. |
| GisaxsTiled.RangeMembers | src/arroyogisaxs/tiled.py:115-119 | `range(lo, hi)` holds exactly the integers from `lo` up to but excluding `hi`. |
| GisaxsTiled.MissingMembers | src/arroyogisaxs/tiled.py:114-116 | The comprehension `[i for i in xs if i not in sent]` keeps exactly the members of `xs` that were not sent. |
| GisaxsTiled.MissingAscending | src/arroyogisaxs/tiled.py:114-116 | Filtering an ascending list keeps it ascending. |
| GisaxsTiled.GapsSpec | src/arroyogisaxs/tiled.py:114-116 | The gaps are exactly the unsent numbers between the smallest and the largest sent frame, in ascending order. |
| GisaxsTiled.ExtrasSpec | src/arroyogisaxs/tiled.py:119 | The extra numbers are exactly those above the largest sent frame up to `num_frames` inclusive, ascending. |
| GisaxsTiled.UnsentFrameNumbersSpec | src/arroyogisaxs/tiled.py:112-122 | `unsent_frame_numbers` raises `ValueError` exactly for an empty list. Otherwise it returns, ascending, the unsent numbers in [min, max] and the numbers in (max, num_frames], and never a sent frame. |
| GisaxsTiled.UnsentFrameNumbersExample | src/_test/test_tiled_poller.py:75-78 | Sent frames [0, 1, 2, 5] with 8 frames give [3, 4, 6, 7, 8], the value the repository's test expects. |
| GisaxsTiled.PendingFramesSpec | src/arroyogisaxs/tiled.py:83-88 | The corrected pending list holds exactly the unsent rows 0 .. n-1, ascending. |
| GisaxsTiled.PendingSplitsAtMax | src/arroyogisaxs/tiled.py:112-122 | For sent frames starting at 0, the corrected pending list is the gaps followed by the rows after the largest sent one. |
| GisaxsTiled.UnsentAgreesWithPending | src/arroyogisaxs/tiled.py:112-122 | For sent frames starting at 0, `unsent_frame_numbers` returns the corrected pending list plus the out-of-range index `num_frames`. |
| GisaxsTiled.PendingAfterPrefix | src/arroyogisaxs/tiled.py:83-88 | Once rows 0 .. k-1 were sent, rows k .. n-1 are pending. |
| GisaxsTiled.Lookup | src/arroyogisaxs/tiled.py:102-104 | A run found under a key is in the listing with that key; no run is found only when no run has the key. |
| GisaxsTiled.ProcessPending | src/arroyogisaxs/tiled.py:84-88 | The row loop emits, appends and stops at the first bad row exactly as `SendRows` specifies. |
| GisaxsTiled.SendRowsSpec | src/arroyogisaxs/tiled.py:84-88 | Each event is numbered by how many frames were sent before it and carries the image of its pending row; each row is appended after its event; the loop stops with `IndexError` at the first row outside the array. |
| GisaxsTiled.SendRowsFromPrefix | src/arroyogisaxs/tiled.py:84-88 | After rows 0 .. k-1, the corrected loop sends rows k .. n-1 numbered k .. n-1, each carrying its own row, and leaves rows 0 .. n-1 sent. |
| GisaxsTiled.PollOnce | src/arroyogisaxs/tiled.py:53-88 | One pass of the loop body sends the messages and reaches the state or exception that `Cycle` specifies. |
| GisaxsTiled.Listen | src/arroyogisaxs/tiled.py:44-88 | `start()` over the observed listings sends what `PollFrom` specifies, ending in the loop's state or in the exception that escaped. |
| GisaxsTiled.PollStep | src/arroyogisaxs/tiled.py:48-88 | A pass that raises ends the loop; otherwise the rest of the loop continues from the state it leaves. |
| GisaxsTiled.CorrectedCycle | src/arroyogisaxs/tiled.py:53-88 | One corrected pass keeps the invariant that the sent rows are 0 .. k-1. Its frame events carry the rows their numbers name, and it never breaks the consumer protocol. It dies only on an empty catalog or a vanished run. |
| GisaxsTiled.ObserveCorrected | src/arroyogisaxs/tiled.py:64-88 | The corrected stop, up-to-date and backfill branches keep the protocol and the sent-rows invariant; a run that vanished raises `KeyError`. |
| GisaxsTiled.CorrectedPoll | src/arroyogisaxs/tiled.py:44-88 | Over any number of passes the corrected poller sends every frame event with the row its number names, never breaks the Start/Event/Stop protocol, and dies only with `IndexError` (empty catalog) or `KeyError` (vanished run). |
| GisaxsTiled.RowsMatchConcat | src/arroyogisaxs/tiled.py:84-88 | Two stretches whose events carry their numbered rows still do when joined. |
| GisaxsTiled.AsWrittenCycle | src/arroyogisaxs/tiled.py:53-88 | As written, with `sent_frames` empty, a pass sends only Start or Stop(0), keeps the protocol, and leaves the loop in its initial state whenever it survives. |
| GisaxsTiled.AsWrittenPoll | src/arroyogisaxs/tiled.py:44-88 | The poller as written sends only Start and Stop(0) messages and never a frame event. |
| GisaxsTiled.AsWrittenDiesOnOpenRun | src/arroyogisaxs/tiled.py:83 | A pass that finds the current run without a stop document raises `ValueError` from `min([])`, after the Start when the run was just picked. |
| GisaxsTiled.PollerExample | src/arroyogisaxs/tiled.py:44-88 | For a three-row run without a stop document, the poller as written sends the Start and dies; the corrected one sends rows 0, 1 and 2 as events 0, 1 and 2 and keeps polling. |
| GisaxsTiled.AsWrittenRescansCompleteRun | src/arroyogisaxs/tiled.py:79 | With all three rows sent, the comparison of line 79 does not skip the run: the pass asks for row 3 and raises `IndexError`. The corrected pass does nothing. |
| GisaxsTiled.UnsentIncludesFrameCount | src/arroyogisaxs/tiled.py:119 | Whenever the sent frames stop short of the frame count, the unsent list contains the frame count itself, and reading that row raises `IndexError`. |
| GisaxsTiled.GetRootContainer | src/arroyogisaxs/tiled.py:199-202 | Returns the "runs" container under the root, created only if absent; the catalog stays a tree. |
| GisaxsTiled.GetRunContainer | src/arroyogisaxs/tiled.py:205-211 | Returns the child named `run_name + "_" + run_id`, created only if absent; a start without a run name or id raises `TypeError` and changes nothing. |
| GisaxsTiled.Patched | src/arroyogisaxs/tiled.py:250-253 | A patch at an offset keeps the rows before it, places the block there, keeps the rows after it, and extends the array when the block runs past its end. |
| GisaxsTiled.ArrayClient.Patch | src/arroyogisaxs/tiled.py:253 | `patch(..., offset, extend=True)` leaves the node holding the patched rows. |
| GisaxsTiled.PatchTiledFrame | src/arroyogisaxs/tiled.py:250-253 | `patch_tiled_frame` appends exactly the one new row at the end of the node. |
| DbReplay.UnknownEnvIsDev | src/arroyosas/app/db_replay_sim_cli.py:82-84 | An environment other than "dev" and "prod" rewrites exactly as "dev". |
| DbReplay.DevUrlsKept | src/arroyosas/app/db_replay_sim_cli.py:87-88 | In "dev", a URL that already names the dev server is returned unchanged. |
| DbReplay.UnparsedUrlsKept | src/arroyosas/app/db_replay_sim_cli.py:102-112 | A URL without "array/full/", or with no stream path after the UUID, is returned unchanged. |
| DbReplay.TransformKeepsQuery | src/arroyosas/app/db_replay_sim_cli.py:91-132 | Rewriting keeps the query: the text after the URL's first '?' (up to a second one) is the rewritten URL's query, and a URL with no query text gets none. |
| DbReplay.TransformTargetsEnv | src/arroyosas/app/db_replay_sim_cli.py:114-128 | A URL the rewrite changes starts with the target environment's `url_pattern`. |
| DbReplay.TransformDevIdempotent | src/arroyosas/app/db_replay_sim_cli.py:71-135 | Rewriting a URL for "dev" twice gives the same URL as rewriting it once. |
| DbReplay.RewriteOnDevHost | src/arroyosas/app/db_replay_sim_cli.py:126-128 | A URL the "dev" rewrite changes ends up naming the dev server. |
| DbReplay.OnDevHost | src/arroyosas/app/db_replay_sim_cli.py:35 | Any URL that starts with the dev `url_pattern` names the dev server. |
| DbReplay.SliceIndexDefaults | src/arroyosas/app/db_replay_sim_cli.py:151-157 | Without a '?' or a "slice=", or when the slice value has no ':', the index is 0. |
| DbReplay.IndexOfDigits | src/arroyosas/app/db_replay_sim_cli.py:154-157 | A slice value that starts with digits and a ':' gives the number those digits spell. |
| DbReplay.SliceIndexRoundTrip | src/arroyosas/app/db_replay_sim_cli.py:151-157 | Writing `?slice=<k>:...` after a query-free URL and parsing it back gives the index `k`. |
| DbReplay.ParsedIffOneApiPath | src/arroyosas/app/db_replay_sim_cli.py:160-165 | A URL is read from exactly when "/api/v1/" occurs exactly once in its query-free part. |
| DbReplay.OneApiPathParts | src/arroyosas/app/db_replay_sim_cli.py:161-163 | Splitting on a single "/api/v1/" gives the text before it and the text after it. |
| DbReplay.ParsedBaseUri | src/arroyosas/app/db_replay_sim_cli.py:168 | The metadata URI is the text before "/api/v1/" followed by "/api/v1/metadata". |
| DbReplay.ParsedDataset | src/arroyosas/app/db_replay_sim_cli.py:171-182 | When no "array/full/" follows "/api/v1/", the dataset is all the text after it. When one does, the dataset is the text after that first "array/full/", up to a second one. |
| DbReplay.SliceIndexOfQuery | src/arroyosas/app/db_replay_sim_cli.py:152-157 | When the text before a URL's '?' holds no '=', the index depends only on the query. |
| DbReplay.ReadImageSpec | src/arroyosas/app/db_replay_sim_cli.py:138-200 | An image comes back exactly when the URL parses and the fetch succeeds, and then with the slice's index. Every failure gives `(None, 0)`. |
| DbReplay.RowEventIndex | src/arroyosas/app/db_replay_sim_cli.py:151-157 | For a row URL with one '?' and no '=' before it, the frame number of the row's event is the slice index of the row's own URL: rewriting for the environment never changes it. |
| DbReplay.Delivered | src/arroyosas/app/db_replay_sim_cli.py:266-293 | A row puts its event on the socket exactly when the image was read and the send succeeded; a failed send is caught and skips the sleep. |
| DbReplay.Outcomes | src/arroyosas/app/db_replay_sim_cli.py:265-293 | One outcome per row, in table order: what that row put on the socket. |
| DbReplay.ReplayRows | src/arroyosas/app/db_replay_sim_cli.py:265-293 | The `for` loop sends each row's event followed by a 0.1 s sleep, and skips the rows whose read or send fails, as `Frames` specifies. |
| DbReplay.Run | src/arroyosas/app/db_replay_sim_cli.py:232-298 | `run()` performs exactly the actions `Replay` specifies, and raises exactly when it does. |
| DbReplay.PresentSpec | src/arroyosas/app/db_replay_sim_cli.py:276-278 | The positions kept are exactly the rows whose event was sent, in ascending order. |
| DbReplay.FramesSpec | src/arroyosas/app/db_replay_sim_cli.py:265-293 | Action 2k sends the event of the k-th row that got one on the socket, and action 2k+1 is the 0.1 s sleep. |
| DbReplay.PresentAll | src/arroyosas/app/db_replay_sim_cli.py:276-278 | Every row is kept exactly when every row's event was sent. |
| DbReplay.FramedShape | src/arroyosas/app/db_replay_sim_cli.py:252-293 | Start, then one event and sleep per row whose event was sent; none of those rows is missed. |
| DbReplay.ReplaySpec | src/arroyosas/app/db_replay_sim_cli.py:232-298 | No action at all exactly when there is no database or no row. Otherwise `run()` raises exactly when the Start or the Stop send fails, and does nothing after a failed Start. After a good Start come each sent row's event and sleep, in table order, then Stop(number of rows). That count exceeds the events sent exactly when some row could not be read or sent. |
| DirectWebsocket.AssessGates | src/arroyosas/tiled/tiled_direct_websocket.py:42-69 | A frame is forwarded exactly when its run is the current, non-empty run, its frame number was not sent yet, its data is truthy and converts, and the frame number is an integer. A forwarded event carries the frame number, the converted data and the run's image URL. A frame from another run is dropped as not current. |
| DirectWebsocket.DeliveryIsOnce | src/arroyosas/tiled/tiled_direct_websocket.py:49-74 | Once a forwarded frame is recorded, the same message is dropped as a duplicate. |
| DirectWebsocket.DirectDataListener.HandleFrameData | src/arroyosas/tiled/tiled_direct_websocket.py:34-76 | `_handle_frame_data` forwards exactly the assessed event. It records the frame only when `process` does not raise, and keeps the sent frames free of duplicates. |
| DirectWebsocket.DirectDataListener.HandleMessage | src/arroyosas/tiled/tiled_direct_websocket.py:19-32 | A "frame_data" message goes to the frame handler; every other message goes to the base class, unchanged. |
| EventReplay.ReadEvents | src/arroyosas/app/tiled_event_sim_cli.py:113-138 | The reading loop gives what `CollectEvents` specifies. |
| EventReplay.PrefixRaises | src/arroyosas/app/tiled_event_sim_cli.py:113-138 | An uncaught exception while reading some file ends the whole reading with that exception. |
| EventReplay.CollectEventsSpec | src/arroyosas/app/tiled_event_sim_cli.py:113-138 | Reading raises exactly when a decoded file is not a valid event object. Otherwise there is one record per decoded file, in listing order, holding that file. |
| EventReplay.TypeIndex | src/arroyosas/app/tiled_event_sim_cli.py:141-147 | A type has a group exactly when it is one of the five listed types, and its index names it. |
| EventReplay.Groups | src/arroyosas/app/tiled_event_sim_cli.py:141-152 | There is one group per listed type. |
| EventReplay.GroupsSnoc | src/arroyosas/app/tiled_event_sim_cli.py:149-152 | One more record is appended to its type's group, or skipped when its type has none. |
| EventReplay.GroupByType | src/arroyosas/app/tiled_event_sim_cli.py:149-152 | The grouping loop gives `Groups`, or `TypeError` when an event name cannot be hashed. |
| EventReplay.SortGroups | src/arroyosas/app/tiled_event_sim_cli.py:155-160 | The sorting loop gives `SortedGroups`. |
| EventReplay.FirstFailure | src/arroyosas/app/tiled_event_sim_cli.py:187-202 | Every send before the returned position succeeds, and the send at it fails unless it is the end. |
| EventReplay.FirstFailureIs | src/arroyosas/app/tiled_event_sim_cli.py:187-202 | The first failure is exactly the position that bounds the successful prefix. |
| EventReplay.SendInOrder | src/arroyosas/app/tiled_event_sim_cli.py:178-202 | The nested sending loop sends the records group by group, up to the first send that fails. |
| EventReplay.SendGroup | src/arroyosas/app/tiled_event_sim_cli.py:183-202 | One group is sent whole, or it stops at the first failing send, which ends the replay. |
| EventReplay.OfTypeSpec | src/arroyosas/app/tiled_event_sim_cli.py:149-152 | Selecting a type keeps exactly its records, each as often as it was read. |
| EventReplay.FlattenOfType | src/arroyosas/app/tiled_event_sim_cli.py:178-183 | In the sending order, the records of a listed type are exactly that type's group. |
| EventReplay.FlattenRanks | src/arroyosas/app/tiled_event_sim_cli.py:178-183 | The sending order never goes back to an earlier type. |
| EventReplay.SortedGroupsTyped | src/arroyosas/app/tiled_event_sim_cli.py:141-160 | Group k holds that type's records sorted by its key. |
| EventReplay.OrderedByType | src/arroyosas/app/tiled_event_sim_cli.py:163-183 | Records are sent in the order `on_new_run`, `on_streams_namespace`, `on_new_stream`, `on_node_in_stream`, `on_event`, and no record of another type is sent. |
| EventReplay.OrderedKeepsEvents | src/arroyosas/app/tiled_event_sim_cli.py:149-183 | Each record of a listed type is offered for sending exactly as often as it was read. |
| EventReplay.OrderedWithinType | src/arroyosas/app/tiled_event_sim_cli.py:155-160 | Within a type, the sent records are that type's records ordered by key: the callback sequence for `on_event`, the sequence otherwise. The order is a permutation and is stable. |
| EventReplay.EmittedSpec | src/arroyosas/app/tiled_event_sim_cli.py:185-199 | Action 2k sends record k's `callback_data` (`{}` when absent) and action 2k+1 is the 0.5 s sleep. |
| EventReplay.ReplayRun | src/arroyosas/app/tiled_event_sim_cli.py:98-204 | `replay_run` performs what `Replay` specifies. |
| EventReplay.ReplaySends | src/arroyosas/app/tiled_event_sim_cli.py:98-204 | A replay that does not raise sends the ordered records' payloads, each followed by a sleep, up to the first failing send. |
| EventReplay.ReplayIsEmitted | src/arroyosas/app/tiled_event_sim_cli.py:98-204 | The replay's actions are `Emitted` of the ordered records, up to the first failure. |
| EventReplay.AvailableRuns | src/arroyosas/app/tiled_event_sim_cli.py:55-58 | The available runs are exactly the directories holding a JSON file. The list is empty exactly when there is none. |
| EventReplay.SelectRun | src/arroyosas/app/tiled_event_sim_cli.py:82 | The configured run when it is available, the first available run otherwise. |
| EventReplay.HandleClientSpec | src/arroyosas/app/tiled_event_sim_cli.py:60-96 | A client on another path gets nothing. With no run it gets the error message. Otherwise it gets the replay of an available run, the configured run when that one is available. |
| TiledWebsocket.PathJoinInjective | src/arroyosas/tiled/tiled_websocket.py:231 | Joining relative names onto the same directory keeps them apart. |
| TiledWebsocket.LogFileNameInjective | src/arroyosas/tiled/tiled_websocket.py:230 | Distinct (event name, sequence) pairs get distinct file names. |
| TiledWebsocket.Bump | src/arroyosas/tiled/tiled_websocket.py:226 | `event_counters[name] += 1` raises that counter by one and leaves the others alone. |
| TiledWebsocket.BumpAllCounts | src/arroyosas/tiled/tiled_websocket.py:226-227 | Each counter counts the logged events of its name. |
| TiledWebsocket.SequenceNumbersConsecutive | src/arroyosas/tiled/tiled_websocket.py:226-227 | The next event of the same name gets the next number. |
| TiledWebsocket.SequenceNumberFirst | src/arroyosas/tiled/tiled_websocket.py:215-227 | The first event of a name in a run is number 1. |
| TiledWebsocket.SequenceNumbersIncrease | src/arroyosas/tiled/tiled_websocket.py:226-227 | Two events of the same name never share a number. |
| TiledWebsocket.LogAllCounts | src/arroyosas/tiled/tiled_websocket.py:218-252 | Logging keeps the run folder, and the counters count every event, failed writes included. |
| TiledWebsocket.LogRun | src/arroyosas/tiled/tiled_websocket.py:210-252 | After `create_run_folder`, when every write succeeds, the run gets exactly one file per event, in order, numbered per name, in the run folder. |
| TiledWebsocket.LogStepWrites | src/arroyosas/tiled/tiled_websocket.py:226-247 | A successful write adds the file numbered one past the event's counter. |
| TiledWebsocket.RunFilesDistinct | src/arroyosas/tiled/tiled_websocket.py:229-231 | No log file of a run overwrites another, as long as no event name starts with "/". |
| TiledWebsocket.StartOf | src/arroyosas/tiled/tiled_websocket.py:179-193 | `publish_start`: the run name and id are the event's key; a missing key is a `KeyError`, a non-string key fails validation. |
| TiledWebsocket.EventOf | src/arroyosas/tiled/tiled_websocket.py:195-204 | `publish_event`: the frame number is the event's sequence, 0 when it is absent. |
| TiledWebsocket.StartOpensRun | src/arroyosas/tiled/tiled_websocket.py:179-193 | The published Start opens a run for an idle consumer. |
| TiledWebsocket.NodeEvent | src/arroyosas/tiled/tiled_websocket.py:118-143 | A node is published only when its key is the target. A missing key is a `KeyError`. Comparing with the target, which `__init__` never assigns, raises `AttributeError`. |
| TiledWebsocket.TiledClientListener.CreateRunFolder | src/arroyosas/tiled/tiled_websocket.py:210-216 | The new folder `log_dir/run_<id>` becomes current and every counter restarts from zero. |
| TiledWebsocket.TiledClientListener.LogMessageToJson | src/arroyosas/tiled/tiled_websocket.py:218-252 | Does nothing without a run folder. Otherwise it bumps the event's counter and writes the numbered file when the write succeeds. |
| TiledWebsocket.TiledClientListener.OnNewRun | src/arroyosas/tiled/tiled_websocket.py:52-69 | With logging on: a fresh run folder and its first log file. Then the Start is handed on. The error cases change nothing. |
| TiledWebsocket.TiledClientListener.OnStreamsNamespace | src/arroyosas/tiled/tiled_websocket.py:71-86 | Only logs the event. |
| TiledWebsocket.TiledClientListener.OnNewStream | src/arroyosas/tiled/tiled_websocket.py:88-105 | Reads the key first (`KeyError` when missing), then logs. |
| TiledWebsocket.TiledClientListener.OnNodeInStream | src/arroyosas/tiled/tiled_websocket.py:116-143 | Logs the event, then hands on the frame event only for the target key. |
| ZmqDispatch.DecodeSpec | src/arroyosas/zmq.py:35-53 | A frame is handed on exactly when it is a map whose `msg_type` names one of the three classes and the schema accepts it. The message holds the frame's fields. |
| ZmqDispatch.DispatchedConcat | src/arroyosas/zmq.py:33-56 | Receiving two stretches hands on each stretch's messages, in order. |
| ZmqDispatch.DispatchedIndices | src/arroyosas/zmq.py:33-56 | The operator sees the decodable frames, in receive order, and every frame left out is one that does not decode. |
| ZmqDispatch.PublishThenReceive | src/arroyosas/zmq.py:77-91 | A listener receiving what the publisher sent hands on exactly the sendable messages, unchanged and in order. |
| ZmqDispatch.DecodeTagged | src/arroyosas/zmq.py:38-89 | A message carrying its class's `msg_type` survives packing and decoding. |
| ZmqDispatch.Sendables | src/arroyosas/zmq.py:79-91 | Only Start, Stop and raw Event messages are sent, and every one of them is. |
| ZmqDispatch.ZMQFrameListener.Start | src/arroyosas/zmq.py:31-56 | The receive loop hands the operator exactly `Dispatched(frames)`, in order. |
| ZmqDispatch.ZMQFramePublisher.Publish | src/arroyosas/zmq.py:77-91 | Sends one frame for a Start, Stop or raw Event and nothing for any other class. |
| Ingestor.SplitOnce | src/arroyosas/tiled/ingestor.py:119 | `split(":", maxsplit=1)` gives one part exactly when there is no colon. The parts rebuild the line, and the first has no colon. |
| Ingestor.ClassifySpec | src/arroyosas/tiled/ingestor.py:118-125 | A line is keyed exactly when it has a colon. Its key and value are the stripped texts around the first colon. A line without a colon is keyless unless it strips to "!0". |
| Ingestor.ParseTxtAccompanyingEdf | src/arroyosas/tiled/ingestor.py:92-126 | Gives exactly `ParseTxt`: an empty dict when the companion file is missing. |
| Ingestor.ParseLines | src/arroyosas/tiled/ingestor.py:116-126 | The line loop gives the parameters `Fold` specifies. |
| Ingestor.KeylessCount | src/arroyosas/tiled/ingestor.py:123-125 | The keyless counter counts the keyless values; "!0" lines do not advance it, and neither do keyed lines. |
| Ingestor.KeylessKeyInjective | src/arroyosas/tiled/ingestor.py:124 | Distinct counters give distinct "Keyless Parameter #n" keys. |
| Ingestor.ParsedKeys | src/arroyosas/tiled/ingestor.py:116-126 | The parsed keys are exactly those of the keyed lines and the keyless keys counted so far. |
| Ingestor.LastKeyedWins | src/arroyosas/tiled/ingestor.py:120-121 | A keyed line's value is kept unless a later line has the same key: the last one wins. |
| Ingestor.KeylessEntry | src/arroyosas/tiled/ingestor.py:123-125 | The n-th keyless value is stored under "Keyless Parameter #n" unless a keyed line uses that key. |
| Ingestor.TxtPathOfEdf | src/arroyosas/tiled/ingestor.py:101-102 | A name whose only ".edf" is its extension gets the ".txt" companion. |
| Ingestor.CommonPrefixLen | src/arroyosas/tiled/ingestor.py:24 | `commonpath`: the longest shared leading components. |
| Ingestor.RelPathInside | src/arroyosas/tiled/ingestor.py:28 | The relative path of a file below the raw-data directory is its components below it. |
| Ingestor.StripExtensionSpec | src/arroyosas/tiled/ingestor.py:43 | `splitext(stem.ext)[0]` is the stem, for a stem with a non-dot character. |
| Ingestor.WalkKeeps | src/arroyosas/tiled/ingestor.py:35-42 | The container walk keeps the catalog a tree and every existing node as it was. |
| Ingestor.WalkAddsPath | src/arroyosas/tiled/ingestor.py:35-42 | The only nodes the walk adds are containers on the walked path. |
| Ingestor.WalkReaches | src/arroyosas/tiled/ingestor.py:35-42 | A walk that does not fail ends at the walked path, with a container at every step. |
| Ingestor.WalkKeepsNodes | src/arroyosas/tiled/ingestor.py:35-42 | The walk never changes or removes a node. |
| Ingestor.WalkAgain | src/arroyosas/tiled/ingestor.py:36-38 | Walking a path that exists creates nothing. |
| Ingestor.RegisterSpec | src/arroyosas/tiled/ingestor.py:43-88 | Registering keeps a tree. The array node sits at `at + [key]`; every node outside the replaced subtree is kept, and no other node is added. |
| Ingestor.RegisterAgain | src/arroyosas/tiled/ingestor.py:45-88 | Registering the same node twice gives the same catalog as once. |
| Ingestor.PlaceWellFormed | src/arroyosas/tiled/ingestor.py:35-88 | After the walk and the registration the catalog is a tree; a failed placement adds only containers. |
| Ingestor.PlaceSucceeds | src/arroyosas/tiled/ingestor.py:35-89 | A successful placement returns `root + parts + [key]`, holds the array node there, and has containers along the path. It keeps every unrelated node and adds nothing else. |
| Ingestor.PlaceTwice | src/arroyosas/tiled/ingestor.py:22-89 | Adding the same scan twice gives the catalog the first call gave. |
| Ingestor.TiledIngestor.AddScanTiled | src/arroyosas/tiled/ingestor.py:22-89 | `add_scan_tiled` changes the catalog and returns exactly as `AddScan` specifies, and keeps the catalog a tree. |
| Ingestor.TiledIngestor.PlaceInTree | src/arroyosas/tiled/ingestor.py:35-88 | The walk, then the deletion and creation, give exactly `Place`. |
| Ingestor.TiledIngestor.WalkContainers | src/arroyosas/tiled/ingestor.py:35-42 | The walking loop gives `WalkFrom` and ends on a container when it does not fail. |
| FileWatcher.SuffixSpec | src/arroyogisaxs/app/tiled_file_watcher_cli.py:112 | `Path.suffix` of `dir/stem.ext` is `.ext`. |
| FileWatcher.SuffixAndKey | src/arroyogisaxs/app/tiled_file_watcher_cli.py:112 | The ingestor's key for an accepted file, followed by its suffix, is the file name. |
| FileWatcher.DetectSpec | src/arroyogisaxs/app/tiled_file_watcher_cli.py:104-119 | One change gives a message exactly when it is the addition of an existing directory or ".gb"/".edf" file, which the message names. |
| FileWatcher.DetectBatchSpec | src/arroyogisaxs/app/tiled_file_watcher_cli.py:104-120 | A message comes out of a batch exactly when some change of the batch reports it. |
| FileWatcher.DetectBatchSound | src/arroyogisaxs/app/tiled_file_watcher_cli.py:104-120 | Each message of a batch comes from a change that reports it. |
| FileWatcher.DetectBatchComplete | src/arroyogisaxs/app/tiled_file_watcher_cli.py:104-120 | Each change that reports a message produces it. |
| FileWatcher.DetectAllSound | src/arroyogisaxs/app/tiled_file_watcher_cli.py:103-120 | Every message names an added, existing directory or ".gb"/".edf" file. |
| FileWatcher.RedisPublisher.Publish | src/arroyogisaxs/app/tiled_file_watcher_cli.py:52-57 | Skips directories and publishes every other message. |
| FileWatcher.TiledPublisher.Publish | src/arroyogisaxs/app/tiled_file_watcher_cli.py:67-78 | Ingests every file (not directories). It forwards the message with its path replaced by the ingested URI, and forwards nothing when ingestion raises. |
| FileWatcher.ForwardAllSpec | src/arroyogisaxs/app/tiled_file_watcher_cli.py:67-78 | What reaches Redis is never a directory, never more than was detected, and always points at a URI the ingestor returned. |
| FileWatcher.FileWatcherOperator.Process | src/arroyogisaxs/app/tiled_file_watcher_cli.py:86-88 | Passes every message to its publisher unchanged; the null publisher does nothing. |
| FileWatcher.FileWatcherListener.Start | src/arroyogisaxs/app/tiled_file_watcher_cli.py:101-120 | The watch loop hands on exactly `DetectAll` of the batches, in order. |
| FileWatcher.FileWatcherListener.ProcessBatch | src/arroyogisaxs/app/tiled_file_watcher_cli.py:104-120 | The inner loop hands on exactly `DetectBatch` of the batch. |
| Simulators.ProcessImages | src/arroyosas/app/frame_listener_sim_cli.py:32-70 | `process_images` performs exactly `Run` for `range(cycles)` cycles. |
| Simulators.SendFrames | src/arroyosas/app/frame_listener_sim_cli.py:49-62 | The frame loop performs exactly `FrameActions`. |
| Simulators.FrameMessages | src/arroyogisaxs/app/frame_listener_sim_cli.py:49-61 | Frames send events numbered 0 .. k-1, in order, and nothing else. |
| Simulators.CycleMessages | src/arroyogisaxs/app/tiled_poller_sim_cli.py:35-62 | A cycle sends the Start, the frame events and Stop(frames), nothing else. |
| Simulators.CycleMessagesAt | src/arroyogisaxs/app/tiled_poller_sim_cli.py:35-62 | A cycle of `frames >= 0` sends `frames + 2` messages, in that order. |
| Simulators.CycleIsCompleteRun | src/arroyosas/app/frame_listener_sim_cli.py:38-65 | Every cycle with a non-negative frame count is a complete protocol run. |
| Simulators.RunFollowsProtocol | src/arroyosas/app/frame_listener_sim_cli.py:35-67 | A simulation follows the protocol exactly when `frames >= 0` or there is no cycle; a negative frame count breaks it for good. |
| Simulators.NegativeFramesBreak | src/arroyosas/app/frame_listener_sim_cli.py:49-63 | A negative frame count sends a Start and then Stop(frames), which no consumer accepts. |
| Simulators.RunMessageAt | src/arroyogisaxs/app/frame_listener_sim_cli.py:35-66 | n cycles send n * (frames + 2) messages; message j of cycle c sits at c * (frames + 2) + j. |
| Simulators.FrameMatchesStart | src/arroyogisaxs/app/frame_listener_sim_cli.py:25-61 | Every frame event's image has the Start's width, height and data type. |
| Simulators.RunSleepsPlaced | src/arroyosas/app/frame_listener_sim_cli.py:62-66 | Sleeps follow only a Stop (the pause) or, in the `arroyosas` simulator, a frame event (0.5 s). |
| WsCli.Override | src/arroyosas/app/tiled_ws_cli.py:28-33 | Each option given replaces its setting; the others keep theirs. |
| WsCli.OverrideIdempotent | src/arroyosas/app/tiled_direct_ws_cli.py:27-33 | Applying the same options twice changes nothing more. |
| WsCli.Derive | src/arroyosas/app/tiled_ws_cli.py:35-43 | Raises exactly when no URL is configured and no URI is set. Otherwise a websocket URL is set and the other settings are kept; a configured URL is kept as it is. |
| WsCli.DeriveIdempotent | src/arroyosas/app/tiled_direct_ws_cli.py:35-42 | Deriving again from derived settings changes nothing. |
| WsCli.OptionUrlWins | src/arroyosas/app/tiled_ws_cli.py:30-36 | A websocket URL given on the command line is used as it is. |
| WsCli.TiledUrlOptionDerives | src/arroyosas/app/tiled_ws_cli.py:28-43 | With no websocket URL, the URL comes from the Tiled URL option rather than the configured URI. |
| WsCli.DeriveHttp | src/arroyosas/app/tiled_ws_cli.py:37-43 | "http://host" and "http://host/" give "ws://host/stream". |
| WsCli.DeriveHttps | src/arroyosas/app/tiled_ws_cli.py:37-43 | "https://host" and "https://host/" give "wss://host/stream", not "ws" followed by "s://". |
| WsCli.DeriveOtherScheme | src/arroyosas/app/tiled_direct_ws_cli.py:36-42 | A URI with neither scheme only loses a trailing "/" and gains "/stream". |
| WsCli.DeriveExample | src/arroyosas/app/tiled_ws_cli.py:37-43 | "http://h:8000/" gives "ws://h:8000/stream". |
| WsCli.ListenerSettings.Start | src/arroyosas/app/tiled_ws_cli.py:27-43 | `start` leaves the settings overridden and derived. On the error, the overrides are already written. |
| PlotHelper.Process1DArray | frontend/src/utils/plotHelper.js:11-40 | `process1DArray` fails exactly on an empty array. Otherwise it gives one red trace of the values against their positions. |
| PlotHelper.Process2DArray | frontend/src/utils/plotHelper.js:48-77 | `process2DArray` succeeds exactly when the first element is a pair and every element can be read. It then gives one blue trace of the x and y columns. |
| PlotHelper.UnzipFailsOnward | frontend/src/utils/plotHelper.js:53-56 | Once reading some element raises, the whole conversion fails. |
| PlotHelper.UnzipPairs | frontend/src/utils/plotHelper.js:53-56 | An array of pairs unzips into columns that zip back into it. |
| PlotHelper.FlatIndexInBounds | frontend/src/utils/plotHelper.js:191-193 | Pixels inside the image have distinct flat positions below `width * height`. |
| PlotHelper.BlockSpec | frontend/src/utils/plotHelper.js:189-200 | Every output cell averages exactly `s * s` distinct pixels, all inside the image, so the bounds check never drops one. |
| PlotHelper.ProcessAndDownsample | frontend/src/utils/plotHelper.js:175-208 | Raises exactly for a scale factor below 1. Otherwise it gives `floor(height/s)` rows of `floor(width/s)` cells, each the block of pixels it averages. |
| PlotHelper.DownsampleRow | frontend/src/utils/plotHelper.js:182-204 | One output row: the block of every column. |
| PlotHelper.BlockPixels | frontend/src/utils/plotHelper.js:189-200 | The inner loops visit exactly the cell's block, row by row. |
| PlotHelper.ReversedInvolution | frontend/src/utils/plotHelper.js:210-217 | Flipping twice gives the rows back. |
| PlotHelper.Flip2DArray | frontend/src/utils/plotHelper.js:210-217 | `flip2DArray`: row i of the result is row len-1-i of the input. |
| PlotHelper.CumulativeUpdate | frontend/src/utils/plotHelper.js:139-173 | Earlier curves are restyled in place as thin grey lines, shaded by position. The recent traces follow as new thick blue curves with markers. |
| GisaxsTiled.Range | src/arroyogisaxs/tiled.py:119 | `range(lo, hi)`: empty unless `lo < hi`, and then the consecutive integers from `lo`. |
| PlotHelper.Reversed | frontend/src/utils/plotHelper.js:212-216 | Pushing the rows from the last one: row i of the result is row len-1-i. |
| Ingestor.RelPath | src/arroyosas/tiled/ingestor.py:28 | `relpath` is never empty: "." when the scan is the root itself. |
| Ingestor.Kinds | src/arroyosas/tiled/ingestor.py:116-125 | Each line of the file is classified on its own. |
| PyStrings.Find | src/arroyosas/app/db_replay_sim_cli.py:152-154 | Behind `sub in s` and `split`: the first position where the text occurs, or none when it never does. |
| PyStrings.Split | src/arroyosas/app/db_replay_sim_cli.py:160-165 | `str.split(sep)`: at least one part, and joining the parts with `sep` rebuilds the text. |
| PyStrings.StripLeft | src/arroyosas/tiled/ingestor.py:120-125 | `lstrip`: drops exactly the leading whitespace. |
| PyStrings.StripRight | src/arroyosas/tiled/ingestor.py:120-125 | `rstrip`: drops exactly the trailing whitespace. |
| PyStrings.NatToString | src/arroyosas/app/db_replay_sim_cli.py:156-157 | `str(n)` is all digits, so `isdigit` accepts it. |
| CatalogTree.Tree.constructor | src/arroyogisaxs/tiled.py:199-202 | A catalog holding only its root container, which is a tree. |
| GisaxsTiled.ArrayClient.constructor | src/arroyogisaxs/tiled.py:250-253 | Wraps an array node's rows. |
| TiledWebsocket.TiledClientListener.constructor | src/arroyosas/tiled/tiled_websocket.py:34-50 | Starts with no run folder, no counter, no file and no message handed on. |
| DirectWebsocket.DirectDataListener.constructor | src/arroyosas/tiled/tiled_direct_websocket.py:16-17 | The inherited constructor: the given current run, no frame sent, nothing processed or handed to the base class. |
| ZmqDispatch.ZMQFrameListener.constructor | src/arroyosas/zmq.py:31-56 | Starts having handed on nothing. |
| ZmqDispatch.ZMQFramePublisher.constructor | src/arroyosas/zmq.py:77-91 | Starts having sent nothing. |
| Ingestor.TiledIngestor.constructor | src/arroyosas/tiled/ingestor.py:16-19 | Holds the given catalog, Tiled root and raw-data directory. |
| WsCli.ListenerSettings.constructor | src/arroyosas/app/tiled_ws_cli.py:27-43 | Holds the settings section as configured. |
| PySort.SortBySpec | src/arroyosas/app/tiled_event_sim_cli.py:155-160 | `list.sort(key=...)`: ordered by key, a permutation of the input, and stable. |
| PyStrings.Format04Value | src/arroyosas/tiled/tiled_websocket.py:230 | `f"{n:04d}"` is all digits and reads back as `n`. |
| PyStrings.NatToStringRoundTrip | src/arroyosas/app/db_replay_sim_cli.py:157 | `int(str(n)) == n`. |

## Left out

- Pixel values, msgpack and JSON encoding, pydantic validation, and Tiled's HTTP API are not modelled. Images are their shape, dtype and origin, and a frame is the dictionary it packs.
- Sockets, Redis, SQLite, the Tiled client, the file system and the clock are not modelled; each becomes a parameter. `asyncio` scheduling and the `while True` loops that never end are modelled over finite input sequences.
- Choosing the settings section, reading environment variables, and logging are not modelled.
- `sub_container` (`functools.reduce` over segments) is not modelled: a run is the frame array it leads to.
- `TiledProcessedPublisher` of `tiled.py` is not modelled: it is outside the polling core.
- `get_urls_from_db` is not modelled: the rows arrive already limited and in id order.
- `_convert_data_to_array` of the direct listener is a parameter.
- The base-class websocket handling of the direct listener is not modelled. `tiled_direct_websocket.py` imports a `TiledWebSocketListener` that `tiled_websocket.py` does not define (it defines `TiledClientListener`).
- The subscriptions `Subscription(...)` opens, `load_data`, and creating `log_dir` on disk are not modelled. `TiledClientListener` records the files written and the messages handed on.
- `connected_clients` bookkeeping in the event simulator is not modelled. The error message to a client with no run is assumed delivered.
- `processJSONPlot`, `processPeakData`, `generateEggData` and `normalizeArray` are not modelled: they are floating-point arithmetic or `JSON.parse` output.
- PlotHelper.ProcessAndDownsample: does not compute the averages (floating-point sums); it proves which pixels each cell averages. The scale factor, width and height are integers: a fractional JavaScript scale factor, which reads `data` at non-integer indices and gives NaN cells, is not modelled.
- PlotHelper.CumulativeUpdate: the grey level is kept as (index, total) rather than its floating-point RGB text.
- EventReplay.SortGroups: a group of two or more records with a key that is not an integer or bool is modelled as `TypeError`, while Python also sorts groups whose keys are all strings or all floats.
- TiledWebsocket.TiledClientListener.OnNewRun: for a key that is not a string the model raises before creating the run folder. Python first creates `run_<str(key)>` and logs the event, then fails when building the Start.
- GisaxsTiled.Listen: `operator.process` is taken never to raise. In the source a raise at `tiled.py` lines 60, 66 or 87 ends `start()`; the model's passes, `PollOnce` and `ProcessPending` do not have that exit.
- DbReplay.Delivered: whether a send succeeds depends only on the message sent, not on when it is sent.
- Socket and operator failures outside the two replay simulators are not modelled: the simulators' `socket.send`, `ZMQFramePublisher.publish`, the publishers of the file watcher and the websocket listeners' `operator.process` are taken to succeed.
- WsCli.ListenerSettings.Start: models the command as typer invokes it, with each option either omitted or a string. Run as a script, `tiled_direct_ws_cli.py` line 55 calls `start()` directly through `asyncio.run`. Its parameters then hold typer's `OptionInfo` defaults, which are truthy, so every setting is overwritten with a non-string value.
- DbReplay.ReadImageSpec: `str.isdigit` and `int` are modelled on ASCII digits only.
- FileWatcher.FileWatcherListener.Start: `Path` normalisation of the watched paths is not modelled; a path is its string.
- Ingestor.TiledIngestor.AddScanTiled: paths are absolute, normalised component sequences; `pathlib.Path` arguments and `commonpath` on mixed relative and absolute paths are not modelled.
- Simulators.ProcessImages: the image contents (`np.random.rand`, `fill_diagonal`) and the debug `print`s are not modelled.

## Findings

| source | as written | input that shows it | evidently intended | confidence | as-written member | corrected member |
|---|---|---|---|---|---|---|
| src/arroyogisaxs/tiled.py:83 | `unsent_frame_numbers(sent_frames, ...)` is called while `sent_frames` is still `[]`, and `min([])` raises `ValueError`, ending `start()` | a run of three frames without a stop document: the poller sends the Start and dies | every frame of the run is pending when none was sent yet | high (not executed) | GisaxsTiled.AsWrittenDiesOnOpenRun | GisaxsTiled.CorrectedPoll |
| src/arroyogisaxs/tiled.py:79 | `sent_frames == frames_array.shape[0]` compares a list with an integer and is always false | a run of three rows with rows 0, 1, 2 sent: the pass asks for row 3 and raises `IndexError` | `len(sent_frames) == frames_array.shape[0]`: skip a run that is up to date | high (not executed) | GisaxsTiled.AsWrittenRescansCompleteRun | GisaxsTiled.CorrectedCycle |
| src/arroyogisaxs/tiled.py:119 | `range(max(sent_frames) + 1, num_frames + 1)` includes `num_frames`, which is not a row of an array of `num_frames` rows (the repository's test pins [3, 4, 6, 7, 8] for 8 frames) | sent [0, 1, 2, 5] with 8 frames gives index 8 | the rows up to `num_frames - 1` | medium (not executed) | GisaxsTiled.UnsentIncludesFrameCount | GisaxsTiled.UnsentAgreesWithPending |
